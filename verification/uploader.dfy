/**
  The uploader itself: the XNAT project it writes into, as an object whose
  subjects, resource folders and upload log change step by step, and the walk
  over a BIDS tree that drives those changes. Each step is proved against the
  value-level definitions of the Remote, Bids and Mapping modules.
*/
module Uploader {
  import opened Wrappers
  import opened Strings
  import opened Remote
  import opened Bids
  import opened Mapping
  import opened Walk
  import opened Created

  /** The pre-flight check: is some top-level entry a directory named like a subject? */
  method CheckSubjectsExist(tree: seq<Entry>) returns (hasSubjects: bool)
    ensures hasSubjects <==> HasSubjectFolder(tree)
  {
    hasSubjects := false;
    for i := 0 to |tree|
      invariant hasSubjects <==> exists j | 0 <= j < i :: tree[j].Dir? && IsSubjectName(tree[j].name)
    {
      if tree[i].Dir? && IsSubjectName(tree[i].name) {
        hasSubjects := true;
      }
    }
    if hasSubjects {
      var j :| 0 <= j < |tree| && tree[j].Dir? && IsSubjectName(tree[j].name);
      assert tree[j] in tree;
    }
  }

  /** The project has the resource folders that each entry of the list asks for. */
  ghost predicate ProjectResourcesPresent(resources: Resources, entries: seq<Entry>) {
    forall j | 0 <= j < |entries| :: forall n | n in ProjectResourceNames(entries[j]) :: n in Labels(resources, ProjectLevel)
  }

  lemma ProjectResourcesPresentGrows(a: Resources, b: Resources, entries: seq<Entry>)
    requires ResourcesGrow(a, b) && ProjectResourcesPresent(a, entries)
    ensures ProjectResourcesPresent(b, entries)
  {
    forall j, n | 0 <= j < |entries| && n in ProjectResourceNames(entries[j]) ensures n in Labels(b, ProjectLevel) {
      PrefixMember(Labels(a, ProjectLevel), Labels(b, ProjectLevel), n);
    }
  }

  lemma ProjectResourcesPresentSnoc(resources: Resources, entries: seq<Entry>, i: nat)
    requires i < |entries| && ProjectResourcesPresent(resources, entries[..i])
    requires forall n | n in ProjectResourceNames(entries[i]) :: n in Labels(resources, ProjectLevel)
    ensures ProjectResourcesPresent(resources, entries[..i + 1])
  {
    var prefix := entries[..i + 1];
    forall j | 0 <= j < |prefix| ensures forall n | n in ProjectResourceNames(prefix[j]) :: n in Labels(resources, ProjectLevel) {
      if j < i {
        assert prefix[j] == entries[..i][j];
      }
    }
  }

  lemma TreeCoveredSnoc(subjects: Subjects, tree: seq<Entry>, i: nat)
    requires i < |tree| && TreeCovered(subjects, tree[..i])
    requires tree[i].Dir? && IsSubjectName(tree[i].name) ==> SubjectCovered(subjects, tree[i])
    ensures TreeCovered(subjects, tree[..i + 1])
  {
    assert tree[..i + 1] == tree[..i] + [tree[i]];
  }

  /** The scan search of an upload: the last scan whose type contains t. */
  method FindLastContaining(scans: seq<Scan>, t: string) returns (scan: Option<nat>)
    ensures scan == LastContaining(scans, t)
  {
    scan := None;
    for i := 0 to |scans|
      invariant scan == LastContaining(scans[..i], t)
    {
      assert scans[..i + 1][..i] == scans[..i];
      if Contains(scans[i].scanType, t) {
        scan := Some(i);
      }
    }
    assert scans[..|scans|] == scans;
  }

  /** The first untyped name is the one at i when all before it are typed. */
  lemma {:induction false} FirstUntypedAt(listing: seq<Entry>, i: nat)
    requires i < |listing| && AllTyped(listing[..i]) && ScanType(listing[i].name).None?
    ensures FirstUntyped(listing) == Some(listing[i].name)
    decreases i
  {
    if i > 0 {
      assert listing[..i][0] == listing[0];
      var tail := listing[1..];
      var typedPrefix := tail[..i - 1];
      assert AllTyped(typedPrefix) by {
        forall j | 0 <= j < |typedPrefix| ensures ScanType(typedPrefix[j].name).Some? {
          assert typedPrefix[j] == listing[..i][j + 1];
        }
      }
      FirstUntypedAt(tail, i - 1);
      assert tail[i - 1] == listing[i];
    }
  }

  /** The XNAT project the uploader writes into. */
  class Project {
    /** Subjects with their experiments and scans. */
    var subjects: Subjects
    /** The resource folders of each container, by label. */
    var resources: Resources
    /** Every upload attempted, in order. */
    var uploads: seq<Upload>

    ghost predicate Valid()
      reads this
    {
      ResourcesValid(subjects, resources)
    }

    /** The project as found on the server. */
    constructor (subjects: Subjects, resources: Resources)
      requires ResourcesValid(subjects, resources)
      ensures Valid()
      ensures this.subjects == subjects && this.resources == resources && uploads == []
    {
      this.subjects := subjects;
      this.resources := resources;
      uploads := [];
    }

    /** Find-or-create of a resource folder: use the one with this label, create it on a miss. */
    method EnsureResource(c: Container, name: string)
      requires Valid() && Exists(subjects, c)
      modifies this`resources
      ensures Valid()
      ensures resources == WithResource(old(resources), c, name)
      ensures ResourcesGrow(old(resources), resources)
    {
      WithResourceKeepsValid(subjects, resources, c, name);
      if name !in Labels(resources, c) {
        resources := resources[c := Labels(resources, c) + [name]];
      }
    }

    /** One top-level entry: a file goes to the project's BIDS resource, a non-subject directory to its own resource. */
    method UploadProjectLevelResources(root: string, e: Entry)
      requires Valid()
      modifies this`resources, this`uploads
      ensures Valid()
      ensures resources == WithResources(old(resources), ProjectLevel, ProjectResourceNames(e))
      ensures uploads == old(uploads) + ProjectUploads(root, e)
      ensures ResourcesGrow(old(resources), resources)
    {
      ghost var r0 := resources;
      EnsureResource(ProjectLevel, "BIDS");
      ghost var r1 := resources;
      if e.File? {
        uploads := uploads + [UploadFile(ProjectLevel, "BIDS", ProjectEntryPath(root, e.name), e.name)];
      }
      if e.Dir? && !IsSubjectName(e.name) {
        EnsureResource(ProjectLevel, e.name);
        ResourcesGrowTransitive(r0, r1, resources);
        uploads := uploads + [UploadDir(ProjectLevel, e.name, ProjectEntryPath(root, e.name))];
        assert ProjectResourceNames(e) == ["BIDS", e.name];
        assert ["BIDS", e.name][1..] == [e.name];
        assert [e.name][1..] == [];
        assert WithResources(r1, ProjectLevel, [e.name]) == resources;
      } else {
        assert ProjectResourceNames(e) == ["BIDS"];
      }
    }

    /** Find-or-create of a subject for a top-level subject directory. */
    method CreateSubjects(e: Entry)
      requires Valid()
      modifies this`subjects
      ensures Valid()
      ensures subjects == if e.Dir? && IsSubjectName(e.name) then WithSubject(old(subjects), e.name) else old(subjects)
    {
      if e.Dir? && IsSubjectName(e.name) {
        var found := false;
        var pending := subjects.Keys;
        while pending != {}
          invariant pending <= subjects.Keys
          invariant found <==> e.name in subjects.Keys - pending
          decreases pending
        {
          var s :| s in pending;
          if s == e.name {
            found := true;
          }
          pending := pending - {s};
        }
        if !found {
          WithSubjectExtends(subjects, e.name);
          ExtendsKeepsValid(subjects, subjects[e.name := map[]], resources);
          subjects := subjects[e.name := map[]];
        }
      }
    }

    /** One entry of a subject folder: a file goes to the subject's BIDS resource, a plain directory to its own resource. */
    method UploadSubjectLevelResources(root: string, subject: string, e: Entry)
      requires Valid() && subject in subjects
      modifies this`resources, this`uploads
      ensures Valid()
      ensures resources == WithResources(old(resources), SubjectLevel(subject), SubjectResourceNames(e))
      ensures uploads == old(uploads) + SubjectUploads(root, subject, e)
      ensures ResourcesGrow(old(resources), resources)
    {
      if e.Dir? && !IsDatatype(e.name) && !IsSessionName(e.name) {
        EnsureResource(SubjectLevel(subject), e.name);
        uploads := uploads + [UploadDir(SubjectLevel(subject), e.name, SubjectEntryPath(root, subject, e.name))];
        assert SubjectResourceNames(e)[1..] == [];
      }
      if e.File? {
        EnsureResource(SubjectLevel(subject), "BIDS");
        uploads := uploads + [UploadFile(SubjectLevel(subject), "BIDS", SubjectEntryPath(root, subject, e.name), e.name)];
        assert SubjectResourceNames(e)[1..] == [];
      }
    }

    /**
      Find-or-create of the experiment of a datatype folder; the label is
      returned whether the experiment was found, created, or (for a datatype
      without a kind) neither.
    */
    method CreateExperiments(ctx: Context) returns (exp: string)
      requires Valid() && ctx.subject in subjects
      modifies this`subjects
      ensures Valid()
      ensures exp == ExperimentLabel(ctx)
      ensures subjects == old(subjects)[ctx.subject := WithExperiment(old(subjects)[ctx.subject], exp, DatatypeKind(ctx.modality))]
    {
      exp := ExperimentLabel(ctx);
      var experiments := subjects[ctx.subject];
      var found := false;
      var pending := experiments.Keys;
      while pending != {}
        invariant pending <= experiments.Keys
        invariant found <==> exp in experiments.Keys - pending
        decreases pending
      {
        var l :| l in pending;
        if l == exp {
          found := true;
        }
        pending := pending - {l};
      }
      var updated := WithExperiment(experiments, exp, DatatypeKind(ctx.modality));
      WithExperimentExtends(subjects, ctx.subject, exp, DatatypeKind(ctx.modality));
      ExtendsKeepsValid(subjects, subjects[ctx.subject := updated], resources);
      if !found {
        match DatatypeKind(ctx.modality)
        case Some(k) =>
          subjects := subjects[ctx.subject := experiments[exp := Experiment(k, [])]];
        case None =>
      }
      assert subjects == old(subjects)[ctx.subject := updated];
    }

    /**
      Find-or-create of the scan for one file of a datatype folder: a scan of
      exactly the file's type is reused; otherwise an image or a recording
      gets a new scan whose id is the number of scans so far. Returns false
      (and changes nothing) when the file's scan type cannot be read.
    */
    method CreateScans(ctx: Context, exp: string, name: string) returns (typed: bool)
      requires Valid() && ctx.subject in subjects && exp in subjects[ctx.subject]
      modifies this`subjects
      ensures Valid()
      ensures typed <==> ScanType(name).Some?
      ensures !typed ==> subjects == old(subjects)
      ensures typed ==> subjects == SetScans(old(subjects), ctx.subject, exp,
        WithScan(old(subjects)[ctx.subject][exp].scans, ScanType(name).value, FileKind(name)))
    {
      var scans := subjects[ctx.subject][exp].scans;
      var scanType := ScanType(name);
      if scanType.None? {
        return false;
      }
      var t := scanType.value;
      var found := false;
      var scanCount := 0;
      for i := 0 to |scans|
        invariant scanCount == i
        invariant found <==> HasScanOfType(scans[..i], t)
      {
        assert scans[..i + 1] == scans[..i] + [scans[i]];
        scanCount := scanCount + 1;
        if scans[i].scanType == t {
          found := true;
        }
      }
      assert scans[..|scans|] == scans;
      var updated := WithScan(scans, t, FileKind(name));
      WithScanSpec(scans, t, FileKind(name));
      SetScansExtends(subjects, ctx.subject, exp, updated);
      ExtendsKeepsValid(subjects, SetScans(subjects, ctx.subject, exp, updated), resources);
      if !found {
        match FileKind(name)
        case Some(k) =>
          subjects := SetScans(subjects, ctx.subject, exp, scans + [Scan(scanCount, t, k)]);
        case None =>
          assert updated == scans;
          subjects := SetScans(subjects, ctx.subject, exp, scans);
      } else {
        subjects := SetScans(subjects, ctx.subject, exp, scans);
      }
      typed := true;
    }

    /**
      Upload of one file of a datatype folder to the resource UploadTarget
      chooses, creating that resource folder on a miss. Returns false (and
      changes nothing) when the scan type is needed and cannot be read.
    */
    method UploadScanLevelResources(root: string, ctx: Context, exp: string, name: string) returns (typed: bool)
      requires Valid() && ctx.subject in subjects && exp == ExperimentLabel(ctx) && exp in subjects[ctx.subject]
      modifies this`resources, this`uploads
      ensures Valid()
      ensures typed <==> UploadTarget(ctx.subject, exp, subjects[ctx.subject][exp].scans, name).Some?
      ensures !typed ==> resources == old(resources)
      ensures typed ==>
        var target := UploadTarget(ctx.subject, exp, subjects[ctx.subject][exp].scans, name).value;
        resources == WithResource(old(resources), target.container, target.resource)
      ensures uploads == old(uploads) + FileUpload(root, ctx, subjects[ctx.subject][exp].scans, name)
      ensures ResourcesGrow(old(resources), resources)
    {
      var scans := subjects[ctx.subject][exp].scans;
      var scan: Option<nat> := None;
      if |scans| > 0 {
        var scanType := ScanType(name);
        if scanType.None? {
          return false;
        }
        scan := FindLastContaining(scans, scanType.value);
      }
      var target: Target;
      match scan {
        case None =>
          target := Target(ExperimentLevel(ctx.subject, exp), "BIDS");
        case Some(i) =>
          target := Target(ScanLevel(ctx.subject, exp, i), ScanResourceName(name));
      }
      assert UploadTarget(ctx.subject, exp, scans, name) == Some(target);
      EnsureResource(target.container, target.resource);
      uploads := uploads + [UploadFile(target.container, target.resource, SourcePath(root, ctx, name), name)];
      typed := true;
    }

    /**
      The first listing of a datatype folder: the scan each file needs, in
      listing order, stopping at the first file whose scan type cannot be read.
    */
    method CreateFolderScans(ctx: Context, exp: string, listing: seq<Entry>) returns (untyped: Option<string>)
      requires Valid() && ctx.subject in subjects && exp in subjects[ctx.subject]
      modifies this`subjects
      ensures Valid()
      ensures untyped == FirstUntyped(listing)
      ensures ctx.subject in subjects && exp in subjects[ctx.subject]
      ensures subjects[ctx.subject][exp].scans == FolderScans(old(subjects)[ctx.subject][exp].scans, listing)
      ensures old(subjects)[ctx.subject][exp].scans <= subjects[ctx.subject][exp].scans
      ensures subjects == SetScans(old(subjects), ctx.subject, exp, subjects[ctx.subject][exp].scans)
      ensures untyped.None? ==> ScansCover(subjects[ctx.subject][exp].scans, listing)
      ensures ScansCover(old(subjects)[ctx.subject][exp].scans, listing) ==> subjects == old(subjects)
    {
      ghost var start := subjects[ctx.subject][exp].scans;
      SetScansSame(subjects, ctx.subject, exp);
      FolderScansGrow(start, listing);
      if ScansCover(start, listing) {
        FolderScansCovered(start, listing);
      }
      for i := 0 to |listing|
        invariant Valid() && ctx.subject in subjects && exp in subjects[ctx.subject]
        invariant subjects == SetScans(old(subjects), ctx.subject, exp, subjects[ctx.subject][exp].scans)
        invariant AllTyped(listing[..i])
        invariant FolderScans(start, listing) == FolderScans(subjects[ctx.subject][exp].scans, listing[i..])
      {
        ghost var before := subjects[ctx.subject][exp].scans;
        var name := listing[i].name;
        FolderScansStep(before, listing, i);
        var typed := CreateScans(ctx, exp, name);
        SetScansTwice(old(subjects), ctx.subject, exp, before, subjects[ctx.subject][exp].scans);
        if !typed {
          FirstUntypedAt(listing, i);
          return Some(name);
        }
        assert listing[..i + 1] == listing[..i] + [listing[i]];
      }
      assert listing[..|listing|] == listing;
      FolderScansCover(start, listing);
      untyped := None;
    }

    /**
      The second listing of a datatype folder: each file uploaded where
      UploadTarget routes it. It runs only after the scan pass over the same
      listing read every file's scan type, so every file here is typed.
    */
    method UploadFolder(root: string, ctx: Context, exp: string, listing: seq<Entry>)
      requires Valid() && ctx.subject in subjects && exp == ExperimentLabel(ctx) && exp in subjects[ctx.subject]
      requires forall e | e in listing :: ScanType(e.name).Some?
      modifies this`resources, this`uploads
      ensures Valid()
      ensures uploads == old(uploads) + FolderUploads(root, ctx, subjects[ctx.subject][exp].scans, listing)
      ensures resources == FolderResources(old(resources), ctx, subjects[ctx.subject][exp].scans, listing)
      ensures ResourcesGrow(old(resources), resources)
    {
      ghost var scans := subjects[ctx.subject][exp].scans;
      for i := 0 to |listing|
        invariant Valid()
        invariant uploads == old(uploads) + FolderUploads(root, ctx, scans, listing[..i])
        invariant resources == FolderResources(old(resources), ctx, scans, listing[..i])
        invariant ResourcesGrow(old(resources), resources)
      {
        ghost var r0, u0 := resources, uploads;
        var typed := UploadScanLevelResources(root, ctx, exp, listing[i].name);
        ResourcesGrowTransitive(old(resources), r0, resources);
        FolderUploadsSnoc(root, ctx, scans, listing, i);
        FolderResourcesSnoc(old(resources), ctx, scans, listing, i);
        assert uploads == u0 + FileUpload(root, ctx, scans, listing[i].name);
      }
      assert listing[..|listing|] == listing;
    }

    /**
      One datatype folder: find or create its experiment, then list the folder
      twice, first creating the scans its files need, then uploading each
      file. Stops when the folder is a file or a file's scan type cannot be
      read, before anything of the folder is uploaded.
    */
    method ProcessDatatypeFolder(root: string, ctx: Context, folder: Entry) returns (outcome: Outcome)
      requires Valid() && ctx.subject in subjects && IsDatatype(ctx.modality)
      modifies this
      ensures Valid()
      ensures outcome == FolderOutcome(root, ctx, folder)
      ensures subjects == FolderSubjects(old(subjects), ctx, Listing(folder))
      ensures FolderCovered(old(subjects), ctx, folder) ==> subjects == old(subjects)
      ensures outcome.Completed? ==> FolderCovered(subjects, ctx, folder)
      ensures outcome.Completed? ==>
        uploads == old(uploads) + FolderUploads(root, ctx, subjects[ctx.subject][ExperimentLabel(ctx)].scans, folder.children)
      ensures outcome.Completed? ==>
        resources == FolderResources(old(resources), ctx, subjects[ctx.subject][ExperimentLabel(ctx)].scans, folder.children)
      ensures !outcome.Completed? ==> uploads == old(uploads) && resources == old(resources)
      ensures ResourcesGrow(old(resources), resources)
    {
      var exp := CreateExperiments(ctx);
      WithExperimentSpec(old(subjects)[ctx.subject], exp, DatatypeKind(ctx.modality));
      SetScansSame(subjects, ctx.subject, exp);
      if folder.File? {
        assert FolderScans(subjects[ctx.subject][exp].scans, []) == subjects[ctx.subject][exp].scans;
        return ListedAFile(FolderPath(root, ctx));
      }
      ghost var created := subjects;
      var untyped := CreateFolderScans(ctx, exp, folder.children);
      if untyped.Some? {
        return NoScanType(untyped.value);
      }
      UploadFolder(root, ctx, exp, folder.children);
      outcome := Completed;
    }

    /** A session folder: each datatype folder in it, in listing order, until one stops. */
    method ProcessSession(root: string, subject: string, session: Entry) returns (outcome: Outcome)
      requires Valid() && subject in subjects && session.Dir? && IsSessionName(session.name)
      modifies this
      ensures Valid()
      ensures outcome == SessionOutcome(root, subject, session.name, session.children)
      ensures subjects == SessionSubjects(root, old(subjects), subject, session.name, session.children)
      ensures OnlySubjectGrows(old(subjects), subjects, subject)
      ensures SubjectEntryCovered(old(subjects), subject, session) ==> subjects == old(subjects)
      ensures outcome.Completed? ==> SubjectEntryCovered(subjects, subject, session)
      ensures old(uploads) <= uploads
      ensures ResourcesGrow(old(resources), resources)
    {
      var listing := session.children;
      for i := 0 to |listing|
        invariant Valid() && subject in subjects
        invariant SessionOutcome(root, subject, session.name, listing) == SessionOutcome(root, subject, session.name, listing[i..])
        invariant SessionSubjects(root, old(subjects), subject, session.name, listing) == SessionSubjects(root, subjects, subject, session.name, listing[i..])
        invariant OnlySubjectGrows(old(subjects), subjects, subject)
        invariant SubjectEntryCovered(old(subjects), subject, session) ==> subjects == old(subjects)
        invariant forall j | 0 <= j < i :: IsDatatype(listing[j].name) ==>
          FolderCovered(subjects, Context(subject, Some(session.name), listing[j].name), listing[j])
        invariant old(uploads) <= uploads
        invariant ResourcesGrow(old(resources), resources)
      {
        assert listing[i..][1..] == listing[i + 1..];
        var d := listing[i];
        if IsDatatype(d.name) {
          var ctx := Context(subject, Some(session.name), d.name);
          ghost var s0, r0, u0 := subjects, resources, uploads;
          var o := ProcessDatatypeFolder(root, ctx, d);
          FolderSubjectsSpec(s0, ctx, Listing(d));
          OnlySubjectGrowsTransitive(old(subjects), s0, subjects, subject);
          ResourcesGrowTransitive(old(resources), r0, resources);
          forall j | 0 <= j < i && IsDatatype(listing[j].name)
            ensures FolderCovered(subjects, Context(subject, Some(session.name), listing[j].name), listing[j])
          {
            FolderCoveredGrows(s0, subjects, Context(subject, Some(session.name), listing[j].name), listing[j]);
          }
          if !o.Completed? {
            return o;
          }
        }
      }
      outcome := Completed;
      assert SubjectEntryCovered(subjects, subject, session) by {
        forall d | d in Listing(session) && IsDatatype(d.name)
          ensures FolderCovered(subjects, Context(subject, Some(session.name), d.name), d)
        {
          var j :| 0 <= j < |listing| && listing[j] == d;
        }
      }
    }

    /**
      One entry of a subject folder: first as a possible subject-level
      resource, then as a datatype folder or a session folder.
    */
    method ProcessSubjectEntry(root: string, subject: string, c: Entry) returns (outcome: Outcome)
      requires Valid() && subject in subjects
      modifies this
      ensures Valid()
      ensures outcome == EntryOutcome(root, subject, c)
      ensures subjects == EntrySubjects(root, old(subjects), subject, c)
      ensures OnlySubjectGrows(old(subjects), subjects, subject)
      ensures SubjectEntryCovered(old(subjects), subject, c) ==> subjects == old(subjects)
      ensures outcome.Completed? ==> SubjectEntryCovered(subjects, subject, c)
      ensures old(uploads) + SubjectUploads(root, subject, c) <= uploads
      ensures ResourcesGrow(old(resources), resources)
    {
      UploadSubjectLevelResources(root, subject, c);
      ghost var s0, r0, u0 := subjects, resources, uploads;
      OnlySubjectGrowsReflexive(subjects, subject);
      if !IsSessionName(c.name) {
        if IsDatatype(c.name) {
          var ctx := Context(subject, None, c.name);
          outcome := ProcessDatatypeFolder(root, ctx, c);
          FolderSubjectsSpec(s0, ctx, Listing(c));
        } else {
          outcome := Completed;
        }
      } else if c.File? {
        outcome := ListedAFile(SubjectEntryPath(root, subject, c.name));
      } else {
        outcome := ProcessSession(root, subject, c);
      }
      ResourcesGrowTransitive(old(resources), r0, resources);
    }

    /** A subject folder: each entry, in listing order, until one stops. */
    method ProcessSubject(root: string, e: Entry) returns (outcome: Outcome)
      requires Valid() && e.Dir? && IsSubjectName(e.name) && e.name in subjects
      modifies this
      ensures Valid()
      ensures outcome == SubjectOutcome(root, e.name, e.children)
      ensures subjects == SubjectSubjects(root, old(subjects), e.name, e.children)
      ensures OnlySubjectGrows(old(subjects), subjects, e.name)
      ensures SubjectCovered(old(subjects), e) ==> subjects == old(subjects)
      ensures outcome.Completed? ==> SubjectCovered(subjects, e)
      ensures old(uploads) <= uploads
      ensures ResourcesGrow(old(resources), resources)
    {
      var listing := e.children;
      OnlySubjectGrowsReflexive(subjects, e.name);
      for i := 0 to |listing|
        invariant Valid() && e.name in subjects
        invariant SubjectOutcome(root, e.name, listing) == SubjectOutcome(root, e.name, listing[i..])
        invariant SubjectSubjects(root, old(subjects), e.name, listing) == SubjectSubjects(root, subjects, e.name, listing[i..])
        invariant OnlySubjectGrows(old(subjects), subjects, e.name)
        invariant SubjectCovered(old(subjects), e) ==> subjects == old(subjects)
        invariant forall j | 0 <= j < i :: SubjectEntryCovered(subjects, e.name, listing[j])
        invariant old(uploads) <= uploads
        invariant ResourcesGrow(old(resources), resources)
      {
        assert listing[i..][1..] == listing[i + 1..];
        ghost var s0, r0 := subjects, resources;
        var o := ProcessSubjectEntry(root, e.name, listing[i]);
        OnlySubjectGrowsTransitive(old(subjects), s0, subjects, e.name);
        ResourcesGrowTransitive(old(resources), r0, resources);
        forall j | 0 <= j < i ensures SubjectEntryCovered(subjects, e.name, listing[j]) {
          SubjectEntryCoveredGrows(s0, subjects, e.name, listing[j]);
        }
        if !o.Completed? {
          return o;
        }
      }
      outcome := Completed;
      assert SubjectCovered(subjects, e) by {
        forall c | c in Listing(e) ensures SubjectEntryCovered(subjects, e.name, c) {
          var j :| 0 <= j < |listing| && listing[j] == c;
        }
      }
    }

    /**
      One top-level entry: its project-level resources, then its subject (for a
      subject folder), then the subject folder's contents.
    */
    method ProcessTopEntry(root: string, e: Entry) returns (outcome: Outcome)
      requires Valid()
      modifies this
      ensures Valid()
      ensures outcome == if e.Dir? && IsSubjectName(e.name) then SubjectOutcome(root, e.name, e.children) else Completed
      ensures subjects == if e.Dir? && IsSubjectName(e.name)
        then SubjectSubjects(root, WithSubject(old(subjects), e.name), e.name, e.children) else old(subjects)
      ensures Extends(old(subjects), subjects)
      ensures forall u | u in old(subjects) && u != e.name :: u in subjects && subjects[u] == old(subjects)[u]
      ensures !(e.Dir? && IsSubjectName(e.name)) ==>
        && uploads == old(uploads) + ProjectUploads(root, e)
        && resources == WithResources(old(resources), ProjectLevel, ProjectResourceNames(e))
      ensures e.Dir? && IsSubjectName(e.name) ==> subjects.Keys == old(subjects).Keys + {e.name}
      ensures e.Dir? && IsSubjectName(e.name) && SubjectCovered(old(subjects), e) ==> subjects == old(subjects)
      ensures e.Dir? && IsSubjectName(e.name) && outcome.Completed? ==> SubjectCovered(subjects, e)
      ensures forall n | n in ProjectResourceNames(e) :: n in Labels(resources, ProjectLevel)
      ensures old(uploads) + ProjectUploads(root, e) <= uploads
      ensures ResourcesGrow(old(resources), resources)
    {
      WithResourcesKeepsValid(subjects, resources, ProjectLevel, ProjectResourceNames(e));
      UploadProjectLevelResources(root, e);
      CreateSubjects(e);
      outcome := Completed;
      ExtendsReflexive(subjects);
      if e.Dir? && IsSubjectName(e.name) {
        WithSubjectExtends(old(subjects), e.name);
        WithSubjectSpec(old(subjects), e.name);
        ghost var s1, r1 := subjects, resources;
        outcome := ProcessSubject(root, e);
        ExtendsTransitive(old(subjects), s1, subjects);
        ResourcesGrowTransitive(old(resources), r1, resources);
        forall n | n in ProjectResourceNames(e) ensures n in Labels(resources, ProjectLevel) {
          PrefixMember(Labels(r1, ProjectLevel), Labels(resources, ProjectLevel), n);
        }
      }
    }

    /**
      A whole run over the tree: the pre-flight check, then each top-level
      entry in listing order until something stops.
    */
    method Run(root: string, tree: seq<Entry>) returns (outcome: Outcome)
      requires Valid()
      modifies this
      ensures Valid()
      ensures outcome == RunOutcome(root, tree)
      ensures outcome.NoSubjectFolders? ==>
        subjects == old(subjects) && resources == old(resources) && uploads == old(uploads)
      ensures subjects == RunSubjects(root, old(subjects), tree)
      ensures Extends(old(subjects), subjects)
      ensures subjects.Keys <= old(subjects).Keys + SubjectFolderNames(tree)
      ensures forall u | u in old(subjects) && u !in SubjectFolderNames(tree) :: subjects[u] == old(subjects)[u]
      ensures TreeCovered(old(subjects), tree) ==> subjects == old(subjects)
      ensures outcome.Completed? ==> TreeCovered(subjects, tree)
      ensures outcome.Completed? ==> ProjectResourcesPresent(resources, tree)
      ensures old(uploads) <= uploads
      ensures ResourcesGrow(old(resources), resources)
    {
      var hasSubjects := CheckSubjectsExist(tree);
      if !hasSubjects {
        return NoSubjectFolders;
      }
      ExtendsReflexive(subjects);
      for i := 0 to |tree|
        invariant Valid()
        invariant TopOutcome(root, tree) == TopOutcome(root, tree[i..])
        invariant TopSubjects(root, old(subjects), tree) == TopSubjects(root, subjects, tree[i..])
        invariant Extends(old(subjects), subjects)
        invariant TreeCovered(old(subjects), tree) ==> subjects == old(subjects)
        invariant TreeCovered(subjects, tree[..i])
        invariant ProjectResourcesPresent(resources, tree[..i])
        invariant old(uploads) <= uploads
        invariant ResourcesGrow(old(resources), resources)
      {
        assert tree[i..][1..] == tree[i + 1..];
        var e := tree[i];
        ghost var s0, r0 := subjects, resources;
        var o := ProcessTopEntry(root, e);
        ExtendsTransitive(old(subjects), s0, subjects);
        ResourcesGrowTransitive(old(resources), r0, resources);
        TreeCoveredGrows(s0, subjects, tree[..i]);
        ProjectResourcesPresentGrows(r0, resources, tree[..i]);
        ProjectResourcesPresentSnoc(resources, tree, i);
        if !o.Completed? {
          return o;
        }
        TreeCoveredSnoc(subjects, tree, i);
      }
      outcome := Completed;
      assert tree[..|tree|] == tree;
    }
  }

  /**
    Running the uploader a second time over the same tree, as after a completed
    run: both runs end the same way, and after a completed first run the second
    creates no subject, experiment or scan.
  */
  method RunTwice(p: Project, root: string, tree: seq<Entry>) returns (first: Outcome, second: Outcome, between: Subjects)
    requires p.Valid()
    modifies p
    ensures first == RunOutcome(root, tree) && second == first
    ensures first.Completed? ==> p.subjects == between
    ensures Extends(between, p.subjects)
  {
    first := p.Run(root, tree);
    between := p.subjects;
    second := p.Run(root, tree);
  }
}
