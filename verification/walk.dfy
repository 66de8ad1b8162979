/**
  Where a walk over a BIDS tree stops. The script has no error handling for
  the tree's shape: listing an entry that is a file, or reading the scan type
  of a file name with too few underscore-separated pieces, ends the run. These
  functions say, from the tree alone, which of those happens first.
*/
module Walk {
  import opened Wrappers
  import opened Bids
  import opened Mapping

  /**
    How a run ends. Only Completed is a normal end; the others are the script
    stopping: no subject folder at all, a listing of an entry that is a file,
    or a file name whose scan type cannot be read.
  */
  datatype Outcome =
    | Completed
    | NoSubjectFolders
    | ListedAFile(path: string)
    | NoScanType(name: string)

  /** The first name in a listing whose scan type cannot be read. */
  function FirstUntyped(listing: seq<Entry>): (r: Option<string>)
    ensures r.None? <==> AllTyped(listing)
    ensures r.Some? ==> exists j | 0 <= j < |listing| ::
      listing[j].name == r.value && ScanType(r.value).None? && AllTyped(listing[..j])
    decreases |listing|
  {
    if |listing| == 0 then None
    else if ScanType(listing[0].name).None? then
      assert AllTyped(listing[..0]);
      Some(listing[0].name)
    else
      var r := FirstUntyped(listing[1..]);
      assert r.None? ==> AllTyped(listing) by {
        if r.None? {
          forall j | 0 <= j < |listing| ensures ScanType(listing[j].name).Some? {
            if j > 0 {
              assert listing[j] == listing[1..][j - 1];
            }
          }
        }
      }
      assert r.Some? ==> exists j | 0 <= j < |listing| ::
        listing[j].name == r.value && ScanType(r.value).None? && AllTyped(listing[..j]) by {
        if r.Some? {
          var k :| 0 <= k < |listing[1..]| && listing[1..][k].name == r.value
            && ScanType(r.value).None? && AllTyped(listing[1..][..k]);
          assert listing[k + 1] == listing[1..][k];
          var prefix := listing[..k + 1];
          forall j | 0 <= j < |prefix| ensures ScanType(prefix[j].name).Some? {
            if j > 0 {
              assert prefix[j] == listing[1..][..k][j - 1];
            }
          }
        }
      }
      r
  }

  /** How the processing of one datatype folder ends. */
  function FolderOutcome(root: string, ctx: Context, folder: Entry): (r: Outcome)
    ensures r.Completed? <==> folder.Dir? && AllTyped(folder.children)
    ensures r.ListedAFile? <==> folder.File?
    ensures r.NoSubjectFolders? == false
  {
    if folder.File? then ListedAFile(FolderPath(root, ctx))
    else match FirstUntyped(folder.children)
      case None => Completed
      case Some(name) => NoScanType(name)
  }

  /** How the processing of a session folder's listing ends: at the first datatype folder that stops. */
  function SessionOutcome(root: string, subject: string, session: string, listing: seq<Entry>): (r: Outcome)
    ensures r.NoSubjectFolders? == false
    decreases |listing|
  {
    if |listing| == 0 then Completed
    else
      var o := if IsDatatype(listing[0].name)
        then FolderOutcome(root, Context(subject, Some(session), listing[0].name), listing[0])
        else Completed;
      if o.Completed? then SessionOutcome(root, subject, session, listing[1..]) else o
  }

  /** How the processing of one entry of a subject folder ends. */
  function EntryOutcome(root: string, subject: string, e: Entry): (r: Outcome)
    ensures r.NoSubjectFolders? == false
  {
    if !IsSessionName(e.name) then
      if IsDatatype(e.name) then FolderOutcome(root, Context(subject, None, e.name), e) else Completed
    else if e.File? then ListedAFile(SubjectEntryPath(root, subject, e.name))
    else SessionOutcome(root, subject, e.name, e.children)
  }

  /** How the processing of a subject folder's listing ends: at the first entry that stops. */
  function SubjectOutcome(root: string, subject: string, listing: seq<Entry>): (r: Outcome)
    ensures r.NoSubjectFolders? == false
    decreases |listing|
  {
    if |listing| == 0 then Completed
    else
      var o := EntryOutcome(root, subject, listing[0]);
      if o.Completed? then SubjectOutcome(root, subject, listing[1..]) else o
  }

  /** How the walk over the top level ends: at the first subject folder that stops. */
  function TopOutcome(root: string, tree: seq<Entry>): (r: Outcome)
    ensures r.NoSubjectFolders? == false
    decreases |tree|
  {
    if |tree| == 0 then Completed
    else
      var e := tree[0];
      var o := if e.Dir? && IsSubjectName(e.name) then SubjectOutcome(root, e.name, e.children) else Completed;
      if o.Completed? then TopOutcome(root, tree[1..]) else o
  }

  /** How a whole run ends: the pre-flight check first, then the walk. */
  function RunOutcome(root: string, tree: seq<Entry>): (r: Outcome)
    ensures r.NoSubjectFolders? <==> !HasSubjectFolder(tree)
  {
    if !HasSubjectFolder(tree) then NoSubjectFolders else TopOutcome(root, tree)
  }

  /** A session folder completes exactly when each of its datatype folders does. */
  lemma {:induction false} SessionOutcomeCompleted(root: string, subject: string, session: string, listing: seq<Entry>)
    ensures SessionOutcome(root, subject, session, listing).Completed? <==>
      forall j | 0 <= j < |listing| :: IsDatatype(listing[j].name) ==>
        FolderOutcome(root, Context(subject, Some(session), listing[j].name), listing[j]).Completed?
    decreases |listing|
  {
    if |listing| > 0 {
      SessionOutcomeCompleted(root, subject, session, listing[1..]);
      forall j | 0 < j < |listing| ensures listing[j] == listing[1..][j - 1] {
      }
    }
  }

  /** A subject folder completes exactly when each of its entries does. */
  lemma {:induction false} SubjectOutcomeCompleted(root: string, subject: string, listing: seq<Entry>)
    ensures SubjectOutcome(root, subject, listing).Completed? <==>
      forall j | 0 <= j < |listing| :: EntryOutcome(root, subject, listing[j]).Completed?
    decreases |listing|
  {
    if |listing| > 0 {
      SubjectOutcomeCompleted(root, subject, listing[1..]);
      forall j | 0 < j < |listing| ensures listing[j] == listing[1..][j - 1] {
      }
    }
  }

  /** The walk completes exactly when each subject folder at the top level does. */
  lemma {:induction false} TopOutcomeCompleted(root: string, tree: seq<Entry>)
    ensures TopOutcome(root, tree).Completed? <==>
      forall j | 0 <= j < |tree| :: tree[j].Dir? && IsSubjectName(tree[j].name) ==>
        SubjectOutcome(root, tree[j].name, tree[j].children).Completed?
    decreases |tree|
  {
    if |tree| > 0 {
      TopOutcomeCompleted(root, tree[1..]);
      forall j | 0 < j < |tree| ensures tree[j] == tree[1..][j - 1] {
      }
    }
  }

  /** A subject folder holding a file whose name contains "ses" stops the run at that file if nothing before it does. */
  lemma {:induction false} SessionFileStops(root: string, subject: string, listing: seq<Entry>, i: nat)
    requires i < |listing| && listing[i].File? && IsSessionName(listing[i].name)
    requires forall j | 0 <= j < i :: EntryOutcome(root, subject, listing[j]).Completed?
    ensures SubjectOutcome(root, subject, listing) == ListedAFile(SubjectEntryPath(root, subject, listing[i].name))
    decreases i
  {
    if i > 0 {
      SessionFileStops(root, subject, listing[1..], i - 1);
    }
  }
}
