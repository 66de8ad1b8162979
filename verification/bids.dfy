/**
  The local side: a BIDS directory tree as the script lists it, the naming
  rules that classify its entries, the scan type read from a file name, and the
  experiment labels and paths derived from where the walk is.
*/
module Bids {
  import opened Wrappers
  import opened Strings
  import opened Remote

  /** A listed entry: a file, or a directory together with its own listing, in listing order. */
  datatype Entry = File(name: string) | Dir(name: string, children: seq<Entry>)

  /** What listing an entry yields; a file has none (listing it is an error the callers handle). */
  function Listing(e: Entry): seq<Entry> {
    if e.Dir? then e.children else []
  }

  /** The datatype folders turned into experiments (other BIDS datatypes are left as resources). */
  const BidsDatatypes: seq<string> := ["anat", "meg", "dwi"]

  const MriSuffixes: seq<string> := [".nii", ".nii.gz"]

  const MegSuffixes: seq<string> := [".con", ".mrk"]

  /** A top-level directory with this name is a subject folder. */
  predicate IsSubjectName(name: string) {
    StartsWith(name, "sub")
  }

  /** A subject-level entry with this name is taken for a session folder. */
  predicate IsSessionName(name: string) {
    Contains(name, "ses")
  }

  predicate IsDatatype(name: string) {
    name in BidsDatatypes
  }

  /** `name.endswith(suffixes)` for a tuple of suffixes. */
  predicate EndsWithAny(name: string, suffixes: seq<string>) {
    exists k :: 0 <= k < |suffixes| && EndsWith(name, suffixes[k])
  }

  predicate IsMriFile(name: string) {
    EndsWithAny(name, MriSuffixes)
  }

  predicate IsMegFile(name: string) {
    EndsWithAny(name, MegSuffixes)
  }

  lemma EndsWithLast(name: string, suffix: string)
    requires |suffix| > 0 && EndsWith(name, suffix)
    ensures name[|name| - 1] == suffix[|suffix| - 1]
  {
    assert name[|name| - |suffix|..][|suffix| - 1] == name[|name| - 1];
  }

  lemma MriLastLetter(name: string)
    requires IsMriFile(name)
    ensures name[|name| - 1] == 'i' || name[|name| - 1] == 'z'
  {
    var k :| 0 <= k < |MriSuffixes| && EndsWith(name, MriSuffixes[k]);
    EndsWithLast(name, MriSuffixes[k]);
  }

  lemma MegLastLetter(name: string)
    requires IsMegFile(name)
    ensures name[|name| - 1] == 'n' || name[|name| - 1] == 'k'
  {
    var k :| 0 <= k < |MegSuffixes| && EndsWith(name, MegSuffixes[k]);
    EndsWithLast(name, MegSuffixes[k]);
  }

  /** No name is both an MR image and an MEG recording, so one file yields at most one scan kind. */
  lemma MriMegExclusive(name: string)
    ensures !(IsMriFile(name) && IsMegFile(name))
  {
    if IsMriFile(name) {
      MriLastLetter(name);
    }
    if IsMegFile(name) {
      MegLastLetter(name);
    }
  }

  /** The kind of scan a file gives rise to: MR for NIfTI images, MEG for KIT recordings, none otherwise. */
  function FileKind(name: string): (r: Option<Kind>)
    ensures r == Some(MR) <==> IsMriFile(name)
    ensures r == Some(MEG) <==> IsMegFile(name)
    ensures r.None? <==> !IsMriFile(name) && !IsMegFile(name)
  {
    MriMegExclusive(name);
    if IsMriFile(name) then Some(MR)
    else if IsMegFile(name) then Some(MEG)
    else None
  }

  /** The kind of experiment a datatype folder gives rise to: MR for anat and dwi, MEG for meg. */
  function DatatypeKind(modality: string): (r: Option<Kind>)
    ensures r.Some? <==> IsDatatype(modality)
    ensures r == Some(MR) <==> modality == "anat" || modality == "dwi"
    ensures r == Some(MEG) <==> modality == "meg"
  {
    if modality == "anat" || modality == "dwi" then Some(MR)
    else if modality == "meg" then Some(MEG)
    else None
  }

  /** A name without the marker's first letter cannot contain the marker. */
  lemma {:induction false} NoFirstLetterNoContains(s: string, p: string)
    requires |p| > 0 && p[0] !in s
    ensures !Contains(s, p)
    decreases |s|
  {
    if |s| > 0 {
      assert forall k | 0 <= k < |s| - 1 :: s[1..][k] == s[k + 1];
      NoFirstLetterNoContains(s[1..], p);
    }
  }

  /** No configured datatype name looks like a session, so the two subject-level tests never overlap. */
  lemma DatatypesAreNotSessions(name: string)
    requires IsDatatype(name)
    ensures !IsSessionName(name)
  {
    NoFirstLetterNoContains(name, "ses");
  }

  /**
    The scan type of a BIDS file name: the second `_`-piece, or the third when
    the second names the session, cut at its first `.`. None when the piece it
    needs is missing (the script's IndexError). ScanTypeSpec states which piece.
  */
  function ScanType(name: string): (r: Option<string>)
    ensures r.Some? ==> '.' !in r.value && '_' !in r.value
  {
    var pieces := Split(name, '_');
    if |pieces| < 2 || (IsSessionName(pieces[1]) && |pieces| < 3) then None
    else
      var piece := if !IsSessionName(pieces[1]) then pieces[1] else pieces[2];
      SplitHead(piece, '.');
      var t := Split(piece, '.')[0];
      assert t == piece[..|t|];
      assert '_' !in piece;
      Some(t)
  }

  /**
    The scan type exists exactly when the name has a second `_`-piece, and a
    third when the second names the session; it is the leading part of that
    piece, up to its first `.` or the whole piece.
  */
  lemma ScanTypeSpec(name: string)
    ensures var pieces := Split(name, '_');
      ScanType(name).Some? <==> |pieces| >= 2 && (IsSessionName(pieces[1]) ==> |pieces| >= 3)
    ensures ScanType(name).Some? ==>
      var pieces := Split(name, '_');
      var piece := if IsSessionName(pieces[1]) then pieces[2] else pieces[1];
      var t := ScanType(name).value;
      StartsWith(piece, t) && (t == piece || piece[|t|] == '.')
  {
    var pieces := Split(name, '_');
    if |pieces| >= 2 && (IsSessionName(pieces[1]) ==> |pieces| >= 3) {
      var piece := if IsSessionName(pieces[1]) then pieces[2] else pieces[1];
      SplitHead(piece, '.');
    }
  }

  /** A separator-free head followed by nothing or by a separator is the first piece. */
  lemma FirstPiece(t: string, tail: string, sep: char)
    requires sep !in t && (tail == "" || tail[0] == sep)
    ensures Split(t + tail, sep)[0] == t
  {
    if tail == "" {
      assert t + tail == t;
      SplitHead(t, sep);
    } else {
      assert t + tail == t + [sep] + tail[1..];
      SplitAfterHead(t, sep, tail[1..]);
    }
  }

  /**
    A type followed by nothing, by an extension or by further `_`-pieces: the
    `_`-piece it starts, cut at its first dot, is the type again.
  */
  lemma PieceType(t: string, tail: string)
    requires '_' !in t && '.' !in t
    requires tail == "" || tail[0] == '.' || tail[0] == '_'
    ensures StartsWith(t + tail, Split(t + tail, '_')[0])
    ensures Split(Split(t + tail, '_')[0], '.')[0] == t
  {
    var p := Split(t + tail, '_')[0];
    SplitHead(t + tail, '_');
    if tail == "" || tail[0] == '_' {
      FirstPiece(t, tail, '_');
      SplitHead(t, '.');
    } else {
      assert (t + tail)[|t|] == '.';
      assert |p| > |t|;
      assert p[..|t|] == t;
      assert p[|t|] == '.';
      assert p == t + p[|t|..];
      FirstPiece(t, p[|t|..], '.');
    }
  }

  /**
    Reading the type back from a name without a session piece:
    `<subject>_<type><tail>` has scan type `<type>`.
  */
  lemma ScanTypeOfName(subject: string, t: string, tail: string)
    requires '_' !in subject && '_' !in t && '.' !in t
    requires tail == "" || tail[0] == '.' || tail[0] == '_'
    requires !IsSessionName(Split(t + tail, '_')[0])
    ensures ScanType(subject + "_" + t + tail) == Some(t)
  {
    var name := subject + "_" + t + tail;
    assert name == subject + ['_'] + (t + tail);
    SplitAfterHead(subject, '_', t + tail);
    PieceType(t, tail);
  }

  /**
    A second piece that merely contains `ses` is taken for the session: in
    `sub-01_task-assess_bold.nii` the scan type is `bold`, not `task-assess`.
  */
  lemma SessionMarkerInTask()
    ensures ScanType("sub-01_task-assess_bold.nii") == Some("bold")
  {
    assert "sub-01_task-assess_bold.nii" == "sub-01" + "_" + "task-assess" + "_" + "bold" + ".nii";
    assert IsSessionName("task-assess") by {
      assert "task-assess"[7..][..3] == "ses";
      ContainsAt("task-assess", "ses", 7);
    }
    ScanTypeOfSessionName("sub-01", "task-assess", "bold", ".nii");
  }

  /**
    Reading the type back from a name with a session piece:
    `<subject>_<session>_<type><tail>` has scan type `<type>`.
  */
  lemma ScanTypeOfSessionName(subject: string, session: string, t: string, tail: string)
    requires '_' !in subject && '_' !in session && IsSessionName(session)
    requires '_' !in t && '.' !in t
    requires tail == "" || tail[0] == '.' || tail[0] == '_'
    ensures ScanType(subject + "_" + session + "_" + t + tail) == Some(t)
  {
    var name := subject + "_" + session + "_" + t + tail;
    assert name == subject + ['_'] + (session + ['_'] + (t + tail));
    SplitAfterHead(subject, '_', session + ['_'] + (t + tail));
    SplitAfterHead(session, '_', t + tail);
    PieceType(t, tail);
  }

  /** A name with no underscore has no scan type: the file the script cannot handle. */
  lemma ScanTypeNeedsUnderscore(name: string)
    requires '_' !in name
    ensures ScanType(name).None?
  {
    SplitHead(name, '_');
  }

  /** Where the walk is at a datatype folder: the subject folder, the session folder if any, the datatype. */
  datatype Context = Context(subject: string, session: Option<string>, modality: string)

  /** The script's `session_folder`: empty, or a slash followed by the session folder's name. */
  function SessionFolder(ctx: Context): string {
    match ctx.session
    case None => ""
    case Some(s) => "/" + s
  }

  /**
    The experiment label, built as the script builds it from `session_folder`
    with its first character dropped. Only the slash goes: the whole session
    folder name stays in the label.
  */
  function ExperimentLabel(ctx: Context): (r: string)
    ensures ctx.session.None? ==> r == ctx.subject + "-" + ctx.modality
    ensures ctx.session.Some? ==> r == ctx.subject + "-" + ctx.session.value + "-" + ctx.modality
  {
    var folder := SessionFolder(ctx);
    if folder == "" then ctx.subject + "-" + ctx.modality
    else ctx.subject + "-" + folder[1..] + "-" + ctx.modality
  }

  lemma ExperimentLabelExample()
    ensures ExperimentLabel(Context("sub-02", Some("ses-1"), "meg")) == "sub-02-ses-1-meg"
  {
  }

  /** The part of the experiment label before the datatype: the subject, and the session folder if any. */
  function LabelHead(ctx: Context): string {
    match ctx.session
    case None => ctx.subject + "-"
    case Some(s) => ctx.subject + "-" + s + "-"
  }

  lemma LabelIsHeadAndModality(ctx: Context)
    ensures ExperimentLabel(ctx) == LabelHead(ctx) + ctx.modality
  {
  }

  /** Folders of one subject in different session folders (or one in none) have different label heads. */
  lemma HeadsDiffer(a: Context, b: Context)
    requires a.subject == b.subject && a.session != b.session
    ensures LabelHead(a) != LabelHead(b)
  {
    if a.session.Some? && b.session.Some? && |a.session.value| == |b.session.value| {
      var n := |a.subject| + 1;
      assert LabelHead(a)[n..n + |a.session.value|] == a.session.value;
      assert LabelHead(b)[n..n + |b.session.value|] == b.session.value;
    }
  }

  /**
    Two different datatype folders of one subject (each a configured datatype,
    directly in the subject folder or in a different session folder) never get
    the same experiment label.
  */
  lemma ExperimentLabelsDistinct(a: Context, b: Context)
    requires a.subject == b.subject
    requires IsDatatype(a.modality) && IsDatatype(b.modality)
    requires a.session != b.session || a.modality != b.modality
    ensures ExperimentLabel(a) != ExperimentLabel(b)
  {
    LabelIsHeadAndModality(a);
    LabelIsHeadAndModality(b);
    var la, lb := ExperimentLabel(a), ExperimentLabel(b);
    var ha, hb := LabelHead(a), LabelHead(b);
    var da, db := a.modality, b.modality;
    if da == db {
      HeadsDiffer(a, b);
      if |ha| == |hb| {
        assert la[..|ha|] == ha;
        assert lb[..|hb|] == hb;
      }
    } else {
      assert la[|la| - 1] == da[|da| - 1];
      assert lb[|lb| - 1] == db[|db| - 1];
    }
  }

  /** The datatype folder's path as the script lists it. */
  function FolderPath(root: string, ctx: Context): string {
    match ctx.session
    case None => root + "/" + ctx.subject + "/" + ctx.modality
    case Some(_) => root + "/" + ctx.subject + SessionFolder(ctx) + "/" + ctx.modality
  }

  /** The source path of a file uploaded from a datatype folder, rebuilt from the walk's names. */
  function SourcePath(root: string, ctx: Context, name: string): string {
    match ctx.session
    case None => root + "/" + ctx.subject + "/" + ctx.modality + "/" + name
    case Some(s) => root + "/" + ctx.subject + "/" + s + "/" + ctx.modality + "/" + name
  }

  /** The rebuilt upload source is the listed folder followed by the file's name: the file uploaded is the file listed. */
  lemma SourcePathInFolder(root: string, ctx: Context, name: string)
    ensures SourcePath(root, ctx, name) == FolderPath(root, ctx) + "/" + name
  {
    if ctx.session.Some? {
      assert SessionFolder(ctx) == "/" + ctx.session.value;
    }
  }

  /** Paths of project-level and subject-level entries. */
  function ProjectEntryPath(root: string, name: string): string {
    root + "/" + name
  }

  function SubjectEntryPath(root: string, subject: string, name: string): string {
    root + "/" + subject + "/" + name
  }
}
