/**
  What a walk creates on the server: the subjects map after a datatype folder,
  a session folder, an entry of a subject folder, a subject folder and a whole
  run, each a function of the server state before it and the tree. A step that
  stops the run still leaves what it created before stopping, so each function
  keeps the state of the step that stopped and goes no further.
*/
module Created {
  import opened Wrappers
  import opened Remote
  import opened Bids
  import opened Mapping
  import opened Walk

  /** b differs from a at most in subject s, and only by growing. */
  ghost predicate OnlySubjectGrows(a: Subjects, b: Subjects, s: string) {
    && Extends(a, b)
    && b.Keys == a.Keys
    && forall u | u in a && u != s :: b[u] == a[u]
  }

  lemma OnlySubjectGrowsTransitive(a: Subjects, b: Subjects, c: Subjects, s: string)
    requires OnlySubjectGrows(a, b, s) && OnlySubjectGrows(b, c, s)
    ensures OnlySubjectGrows(a, c, s)
  {
    ExtendsTransitive(a, b, c);
  }

  lemma OnlySubjectGrowsReflexive(a: Subjects, s: string)
    ensures OnlySubjectGrows(a, a, s)
  {
    ExtendsReflexive(a);
  }

  /**
    A datatype folder: its experiment found or created with the datatype's
    kind, then the scan pass over its listing (empty when the folder is a file,
    which stops the run right after the experiment step).
  */
  function FolderSubjects(subjects: Subjects, ctx: Context, listing: seq<Entry>): (r: Subjects)
    requires ctx.subject in subjects && IsDatatype(ctx.modality)
    ensures r.Keys == subjects.Keys
    ensures forall u | u in subjects && u != ctx.subject :: r[u] == subjects[u]
  {
    var exp := ExperimentLabel(ctx);
    var experiments := WithExperiment(subjects[ctx.subject], exp, DatatypeKind(ctx.modality));
    WithExperimentSpec(subjects[ctx.subject], exp, DatatypeKind(ctx.modality));
    SetScans(subjects[ctx.subject := experiments], ctx.subject, exp, FolderScans(experiments[exp].scans, listing))
  }

  /**
    A datatype folder changes only its own experiment, which exists afterwards:
    reused if present, else new, empty before the scan pass and of the
    datatype's kind; its scans are the scan pass over the listing.
  */
  lemma FolderSubjectsSpec(subjects: Subjects, ctx: Context, listing: seq<Entry>)
    requires ctx.subject in subjects && IsDatatype(ctx.modality)
    ensures OnlySubjectGrows(subjects, FolderSubjects(subjects, ctx, listing), ctx.subject)
    ensures FolderSubjects(subjects, ctx, listing)[ctx.subject].Keys == subjects[ctx.subject].Keys + {ExperimentLabel(ctx)}
    ensures forall l | l in subjects[ctx.subject] && l != ExperimentLabel(ctx) ::
      FolderSubjects(subjects, ctx, listing)[ctx.subject][l] == subjects[ctx.subject][l]
    ensures var s, exp := ctx.subject, ExperimentLabel(ctx);
      exp in subjects[s] ==> FolderSubjects(subjects, ctx, listing)[s][exp] == subjects[s][exp].(scans := FolderScans(subjects[s][exp].scans, listing))
    ensures var s, exp := ctx.subject, ExperimentLabel(ctx);
      exp !in subjects[s] ==> FolderSubjects(subjects, ctx, listing)[s][exp] == Experiment(DatatypeKind(ctx.modality).value, FolderScans([], listing))
  {
    var s, exp, kind := ctx.subject, ExperimentLabel(ctx), DatatypeKind(ctx.modality);
    var experiments := WithExperiment(subjects[s], exp, kind);
    WithExperimentSpec(subjects[s], exp, kind);
    var scans := FolderScans(experiments[exp].scans, listing);
    var r := FolderSubjects(subjects, ctx, listing);
    assert r[s] == experiments[exp := experiments[exp].(scans := scans)];
    WithExperimentExtends(subjects, s, exp, kind);
    FolderScansGrow(experiments[exp].scans, listing);
    SetScansExtends(subjects[s := experiments], s, exp, scans);
    ExtendsTransitive(subjects, subjects[s := experiments], r);
  }

  /** A session folder: each datatype folder in listing order, up to and including the first that stops. */
  function SessionSubjects(root: string, subjects: Subjects, subject: string, session: string, listing: seq<Entry>): (r: Subjects)
    requires subject in subjects
    ensures r.Keys == subjects.Keys
    ensures forall u | u in subjects && u != subject :: r[u] == subjects[u]
    decreases |listing|
  {
    if |listing| == 0 then subjects
    else if !IsDatatype(listing[0].name) then SessionSubjects(root, subjects, subject, session, listing[1..])
    else
      var ctx := Context(subject, Some(session), listing[0].name);
      var next := FolderSubjects(subjects, ctx, Listing(listing[0]));
      if FolderOutcome(root, ctx, listing[0]).Completed? then SessionSubjects(root, next, subject, session, listing[1..])
      else next
  }

  /** One entry of a subject folder: a datatype folder, a session folder, or nothing to create. */
  function EntrySubjects(root: string, subjects: Subjects, subject: string, e: Entry): (r: Subjects)
    requires subject in subjects
    ensures r.Keys == subjects.Keys
    ensures forall u | u in subjects && u != subject :: r[u] == subjects[u]
  {
    if !IsSessionName(e.name) then
      if IsDatatype(e.name) then FolderSubjects(subjects, Context(subject, None, e.name), Listing(e)) else subjects
    else if e.File? then subjects
    else SessionSubjects(root, subjects, subject, e.name, e.children)
  }

  /** A subject folder: each entry in listing order, up to and including the first that stops. */
  function SubjectSubjects(root: string, subjects: Subjects, subject: string, listing: seq<Entry>): (r: Subjects)
    requires subject in subjects
    ensures r.Keys == subjects.Keys
    ensures forall u | u in subjects && u != subject :: r[u] == subjects[u]
    decreases |listing|
  {
    if |listing| == 0 then subjects
    else
      var next := EntrySubjects(root, subjects, subject, listing[0]);
      if EntryOutcome(root, subject, listing[0]).Completed? then SubjectSubjects(root, next, subject, listing[1..])
      else next
  }

  /**
    The walk over the top level: each subject folder's subject found or created,
    then its contents, until one stops. Only the subjects of the tree's subject
    folders can appear or change.
  */
  function TopSubjects(root: string, subjects: Subjects, tree: seq<Entry>): (r: Subjects)
    ensures r.Keys <= subjects.Keys + SubjectFolderNames(tree)
    ensures forall u | u in subjects && u !in SubjectFolderNames(tree) :: u in r && r[u] == subjects[u]
    decreases |tree|
  {
    if |tree| == 0 then subjects
    else
      var e := tree[0];
      assert SubjectFolderNames(tree[1..]) <= SubjectFolderNames(tree) by {
        forall n | n in SubjectFolderNames(tree[1..]) ensures n in SubjectFolderNames(tree) {
          var d :| d in tree[1..] && d.Dir? && IsSubjectName(d.name) && d.name == n;
        }
      }
      assert e.Dir? && IsSubjectName(e.name) ==> e.name in SubjectFolderNames(tree);
      if !(e.Dir? && IsSubjectName(e.name)) then TopSubjects(root, subjects, tree[1..])
      else
        var next := SubjectSubjects(root, WithSubject(subjects, e.name), e.name, e.children);
        if SubjectOutcome(root, e.name, e.children).Completed? then TopSubjects(root, next, tree[1..])
        else next
  }

  /** A whole run: nothing when the pre-flight check fails, else the walk. */
  function RunSubjects(root: string, subjects: Subjects, tree: seq<Entry>): (r: Subjects)
    ensures r.Keys <= subjects.Keys + SubjectFolderNames(tree)
    ensures forall u | u in subjects && u !in SubjectFolderNames(tree) :: u in r && r[u] == subjects[u]
  {
    if !HasSubjectFolder(tree) then subjects else TopSubjects(root, subjects, tree)
  }

  /** The experiments a session folder adds to its subject are those of its datatype folders. */
  lemma {:induction false} SessionSubjectsLabels(root: string, subjects: Subjects, subject: string, session: string, listing: seq<Entry>)
    requires subject in subjects
    ensures forall l | l in SessionSubjects(root, subjects, subject, session, listing)[subject] && l !in subjects[subject] ::
      exists j | 0 <= j < |listing| :: IsDatatype(listing[j].name) && l == ExperimentLabel(Context(subject, Some(session), listing[j].name))
    decreases |listing|
  {
    if |listing| > 0 {
      var r := SessionSubjects(root, subjects, subject, session, listing);
      var next := subjects;
      if IsDatatype(listing[0].name) {
        var ctx := Context(subject, Some(session), listing[0].name);
        next := FolderSubjects(subjects, ctx, Listing(listing[0]));
        FolderSubjectsSpec(subjects, ctx, Listing(listing[0]));
      }
      SessionSubjectsLabels(root, next, subject, session, listing[1..]);
      forall l | l in r[subject] && l !in subjects[subject]
        ensures exists j | 0 <= j < |listing| :: IsDatatype(listing[j].name) && l == ExperimentLabel(Context(subject, Some(session), listing[j].name))
      {
        if l in next[subject] {
          assert listing[0].name in BidsDatatypes && l == ExperimentLabel(Context(subject, Some(session), listing[0].name));
        } else {
          var j :| 0 <= j < |listing[1..]| && IsDatatype(listing[1..][j].name)
            && l == ExperimentLabel(Context(subject, Some(session), listing[1..][j].name));
          assert listing[1..][j] == listing[j + 1];
        }
      }
    }
  }
}
