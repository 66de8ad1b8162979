# BIDS uploader model

A Dafny model of `bids-uploader.py`, a script that uploads a BIDS directory tree
into one project of an XNAT server. It walks the tree in listing order and does
the following:

- **Top level.** For each entry, the script:
  - ensures the project's `BIDS` resource folder;
  - uploads top-level files into `BIDS`;
  - gives every other non-subject directory a resource folder of its own name and uploads it there;
  - creates a subject for every directory whose name starts with `sub`.
- **Inside a subject folder:**
  - files go to the subject's `BIDS` resource;
  - plain directories get a subject-level resource of their own name;
  - datatype folders (`anat`, `meg`, `dwi`), either directly there or inside a session folder (any name containing `ses`), become experiments. Their kind is MR for `anat` and `dwi` and MEG for `meg`.
- **Datatype folders.** Each is listed twice:
  - The first listing reads each file's scan type from its name. It then creates one scan per new type for NIfTI images (`.nii`, `.nii.gz`) and KIT recordings (`.con`, `.mrk`).
  - The second listing uploads every file. A file goes to the last scan whose type *contains* its own type, or to the experiment's `BIDS` resource when no scan matches. Inside the scan it goes to `NIFTI`, `MEG` or `BIDS` by suffix.

Every creation is a find-or-create: by label, or for scans by type. A second run over the same tree
therefore creates no subject, experiment or scan.

The project has eight modules, one per file:

| module | contents |
|---|---|
| `Strings` | the Python string operations the script relies on |
| `Remote` | the server state as values, with the find-or-create steps as functions |
| `Bids` | the local tree, its naming rules, the scan type of a file name, experiment labels and paths |
| `Mapping` | where each entry's uploads go, and when a tree is already fully on the server ("covered") |
| `Walk` | which way a run ends, as a function of the tree alone |
| `Created` | the subjects, experiments and scans on the server after a datatype folder, a session folder, a subject folder's entry, a subject folder and a whole run, each as a function of the state before and the tree |
| `Uploader` | the script itself: a `Project` class whose `subjects`, `resources` and `uploads` fields its methods update step by step. Each method is proved against the value-level definitions above |
| `Wrappers` | `Option` |

### Where the code and its documented intent differ

The model follows the code in each of these cases.

- **Session labels keep the whole folder name.** The experiment label of a datatype folder inside a session folder is `<subject>-<session folder>-<datatype>`, e.g. `sub-02-ses-1-meg`. The script strips only the leading `/` from `session_folder` (lines 123-127), so the `ses-` prefix stays.
- **An unreadable scan type ends the run.** A file whose name has too few `_`-separated pieces makes `get_scan_type` raise an `IndexError` that nothing catches. This happens in both passes, and the whole run stops. It is not a logged skip. `Walk.Outcome.NoScanType` marks this end.
- **Listing a file ends the run.** A subject-level *file* whose name contains `ses`, or a file named like a datatype folder, is listed with `os.listdir`, which fails. `Walk.Outcome.ListedAFile` marks this end.
- **The session test looks at the second piece of a file name only.** `get_scan_type` skips the second `_`-piece whenever it contains `ses`, whatever it is. A task label such as `task-assess` is therefore taken for a session, and `sub-01_task-assess_bold.nii` gets the scan type `bold` (see `Bids.SessionMarkerInTask`).
- **Upload routing uses containment, scan creation uses equality.** A file can therefore land in a scan created for a longer type (see `Mapping.ContainingLaterScanWins`).

## Model

| member | source | states |
|---|---|---|
| Strings.Split | bids-uploader.py:143 | `split` on one character yields at least one piece and no piece holds the separator |
| Strings.SplitHead | bids-uploader.py:148-149 | the first piece is the text up to the first separator, the whole string when there is none |
| Strings.JoinSplit | bids-uploader.py:143 | joining the pieces of a split with the separator gives back the original name |
| Strings.SplitJoin | bids-uploader.py:143 | splitting a join of separator-free pieces gives back the pieces |
| Strings.SplitAfterHead | bids-uploader.py:143 | a separator-free head followed by the separator is peeled off as one piece |
| Strings.ContainsSelf | bids-uploader.py:174 | a type always contains itself, so the containment search can find the scan of exactly that type |
| Bids.MriMegExclusive | bids-uploader.py:23-24 | no file name ends with both an MR suffix and an MEG suffix |
| Bids.FileKind | bids-uploader.py:164-167 | a file asks for an MR scan iff it ends in `.nii`/`.nii.gz`, an MEG scan iff it ends in `.con`/`.mrk`, and for none otherwise |
| Bids.DatatypeKind | bids-uploader.py:128-137 | the kind is MR exactly for `anat` and `dwi`, MEG exactly for `meg`, and there is none for any other name |
| Bids.DatatypesAreNotSessions | bids-uploader.py:250-253 | no configured datatype name contains `ses`, so a datatype folder in a subject folder is never taken for a session |
| Bids.ScanType | bids-uploader.py:142-150 | a read scan type holds neither `.` nor `_` |
| Bids.ScanTypeSpec | bids-uploader.py:142-150 | the scan type exists iff there is a second piece, and a third when the second contains `ses`; it is that piece up to its first `.` |
| Bids.ScanTypeOfName | bids-uploader.py:142-150 | `<subject>_<type><extension or more pieces>` has scan type `<type>` whenever the second `_`-piece has no `ses` in it |
| Bids.ScanTypeOfSessionName | bids-uploader.py:142-150 | `<subject>_<session>_<type>...` has scan type `<type>` when the second piece contains `ses` |
| Bids.SessionMarkerInTask | bids-uploader.py:144-147 | `sub-01_task-assess_bold.nii` has scan type `bold`: a second piece holding `ses` anywhere is skipped |
| Bids.ScanTypeNeedsUnderscore | bids-uploader.py:143-145 | a name without `_` has no scan type: the case where the script raises |
| Bids.ExperimentLabel | bids-uploader.py:117-138 | the label is `<subject>-<datatype>`, or `<subject>-<session folder>-<datatype>` inside a session folder |
| Bids.ExperimentLabelExample | bids-uploader.py:123-127 | the session folder `ses-1` of `sub-02` gives the MEG experiment label `sub-02-ses-1-meg` |
| Bids.ExperimentLabelsDistinct | bids-uploader.py:117-138 | two different datatype folders of one subject never share an experiment label |
| Bids.SourcePathInFolder | bids-uploader.py:203-210 | the upload source path is the listed datatype folder's path followed by the file name |
| Remote.WithResource | bids-uploader.py:178-181 | resource find-or-create: the label is present afterwards, added once at the end on a miss, nothing changes on a hit, other containers untouched |
| Remote.WithResourceKeepsValid | bids-uploader.py:178-181 | find-or-create keeps resources on existing containers without duplicate labels, and only grows the catalogue |
| Remote.WithResourcesKeepsValid | bids-uploader.py:42-60 | ensuring several labels in turn keeps the catalogue valid, leaves every label present and touches no other container |
| Remote.WithResourceIdempotent | bids-uploader.py:42-45 | asking for the same resource folder twice creates it at most once |
| Remote.WithResourceNoDuplicates | bids-uploader.py:42-45 | find-or-create never gives a container the same label twice |
| Remote.WithSubjectSpec | bids-uploader.py:76-81 | `WithSubject`, the subject find-or-create: the subject exists afterwards, at most one subject is added, existing subjects are untouched, repeating it changes nothing |
| Remote.WithSubjectExtends | bids-uploader.py:76-81 | subject creation removes and alters nothing |
| Remote.WithExperimentSpec | bids-uploader.py:117-137 | `WithExperiment`, the experiment find-or-create: the experiment exists afterwards iff it existed or the datatype has a kind; a new one is empty and of that kind; existing ones are untouched; repeating it changes nothing |
| Remote.WithExperimentExtends | bids-uploader.py:117-137 | experiment creation removes and alters nothing |
| Remote.WithScanSpec | bids-uploader.py:156-167 | `WithScan`, the scan find-or-create: scans are kept as a prefix; one scan is added iff none has exactly the type and the file has a kind; the added scan has the earlier scan count as its id, the type, and the file's kind; repeating it changes nothing; ids that were positions stay positions; scan types stay distinct |
| Remote.SetScansExtends | bids-uploader.py:165-167 | appending scans to an experiment removes and alters nothing |
| Mapping.LastContaining | bids-uploader.py:172-175 | the chosen scan's type contains the file's type and no later scan's does; none when no scan's type does |
| Mapping.ScanResourceName | bids-uploader.py:183-200 | `NIFTI` iff an MR suffix, `MEG` iff an MEG suffix and no MR suffix, `BIDS` otherwise |
| Mapping.UploadTarget | bids-uploader.py:171-200 | the target is missing iff the experiment has scans and the type cannot be read; it is always an experiment or a scan resource |
| Mapping.UploadTargetSpec | bids-uploader.py:172-200 | a typed file goes to the experiment's `BIDS` iff no scan's type contains its type, otherwise to its resource in the last scan whose type does |
| Mapping.CreatedTypeIsRoutedToAScan | bids-uploader.py:158-200 | once a scan of exactly the file's type exists, the file reaches a scan, and a sidecar lands in that scan's `BIDS` |
| Mapping.ContainingLaterScanWins | bids-uploader.py:172-175 | a later scan whose type contains the file's type takes the file away from the scan created for that type |
| Mapping.FileUploadOfTyped | bids-uploader.py:201-210 | a typed file gives exactly one file upload, from its rebuilt path, under its own name |
| Mapping.FolderUploadsOnePerFile | bids-uploader.py:261-263 | when every file is typed, a datatype folder's uploads are one per file, in listing order, from each file's path under its name |
| Mapping.FolderScansGrow | bids-uploader.py:257-259 | `FolderScans`, the scan pass over a listing keeps the scans as a prefix; every appended scan has its position as its id; scan types stay distinct and ids that were positions stay positions |
| Mapping.FolderScansFromFiles | bids-uploader.py:154-167 | every scan the pass appends has the scan type and the kind of some file in the listing |
| Mapping.FolderScansCover | bids-uploader.py:257-259 | after a pass over a listing whose files are all typed, every image and recording type of the listing has a scan |
| Mapping.FolderScansCovered | bids-uploader.py:257-259 | a pass over a listing whose types all have scans already appends nothing |
| Mapping.FolderUploadsHaveResources | bids-uploader.py:171-200 | every upload of the upload pass goes into a resource folder that exists after the pass |
| Mapping.FolderResourcesOnlyTargets | bids-uploader.py:261-263 | every resource folder the upload pass creates is the upload target of some file of the listing |
| Created.FolderSubjectsSpec | bids-uploader.py:253-263 | a datatype folder changes only its subject, and in it only its own experiment, which exists afterwards; an existing experiment keeps its kind and gets the scan pass's scans; a new one has the datatype's kind and only the scans of the pass |
| Created.SessionSubjectsLabels | bids-uploader.py:264-275 | every experiment a session folder adds to its subject is labelled after one of the session's datatype folders |
| Created.TopSubjects | bids-uploader.py:235-247 | only subjects named by top-level subject folders can appear or change |
| Mapping.TreeCoveredGrows | bids-uploader.py:235-280 | a tree already represented on the server stays represented as containers are added |
| Walk.FirstUntyped | bids-uploader.py:257-259 | none iff every file of the listing has a scan type; otherwise a file without one, every file before it typed |
| Walk.FolderOutcome | bids-uploader.py:253-263 | a datatype folder completes iff it is a directory whose files all have scan types; listing it fails iff it is a file |
| Walk.RunOutcome | bids-uploader.py:28-36 | a run stops before the walk iff the tree has no top-level subject directory |
| Walk.SessionOutcomeCompleted | bids-uploader.py:267-280 | a session folder completes iff each of its datatype folders does |
| Walk.SubjectOutcomeCompleted | bids-uploader.py:247-280 | a subject folder completes iff each of its entries does |
| Walk.TopOutcomeCompleted | bids-uploader.py:235-280 | the walk completes iff each top-level subject folder does |
| Walk.SessionFileStops | bids-uploader.py:264-267 | a file whose name contains `ses` stops the run at that file when nothing before it did |
| Uploader.CheckSubjectsExist | bids-uploader.py:28-36 | true iff some top-level entry is a directory whose name starts with `sub` |
| Uploader.FindLastContaining | bids-uploader.py:172-175 | the loop finds the last scan whose type contains the file's type |
| Uploader.Project.constructor | bids-uploader.py:224-225 | the project found on the server, with a valid resource catalogue and no uploads yet |
| Uploader.Project.EnsureResource | bids-uploader.py:178-181 | the catalogue becomes the find-or-create of that label, stays valid and only grows |
| Uploader.Project.UploadProjectLevelResources | bids-uploader.py:40-66 | ensures `BIDS`, plus the directory's own resource for a non-subject directory; uploads a file into `BIDS` or such a directory into its resource |
| Uploader.Project.CreateSubjects | bids-uploader.py:70-81 | a top-level subject directory's subject is found or created; anything else changes nothing |
| Uploader.Project.UploadSubjectLevelResources | bids-uploader.py:85-111 | a plain directory gets its own subject resource and is uploaded there; a file goes to the subject's `BIDS` |
| Uploader.Project.CreateExperiments | bids-uploader.py:115-138 | returns the folder's experiment label and finds or creates that experiment with the datatype's kind |
| Uploader.Project.CreateScans | bids-uploader.py:154-167 | fails iff the scan type cannot be read, then changing nothing; otherwise the experiment's scans become the scan find-or-create for that type and kind |
| Uploader.Project.UploadScanLevelResources | bids-uploader.py:171-213 | succeeds iff an upload target exists; ensures that resource folder and records the file's upload there |
| Uploader.Project.CreateFolderScans | bids-uploader.py:257-259 | stops at the first untyped file; the experiment's scans become exactly the scan pass over the listing and nothing else changes; on completion every image and recording type has a scan; a covered folder changes nothing |
| Uploader.Project.UploadFolder | bids-uploader.py:261-263 | on a listing whose files all have scan types, as the scan pass before it guarantees, the uploads are exactly the folder's file uploads, and the resource folders exactly those of the upload pass, both routed against the experiment's scans |
| Uploader.Project.ProcessDatatypeFolder | bids-uploader.py:253-263 | ends as the folder's outcome says; the subjects become exactly the experiment find-or-create and scan pass of the folder; on completion the folder is covered and the uploads and resource folders are exactly those of the upload pass; otherwise nothing is uploaded; a covered folder changes no container |
| Uploader.Project.ProcessSession | bids-uploader.py:264-280 | ends as the session's outcome says; the subjects become exactly the experiments and scans of its datatype folders up to the one that stops; only its subject changes; on completion every datatype folder in it is covered; a covered session changes no container |
| Uploader.Project.ProcessSubjectEntry | bids-uploader.py:248-280 | ends as the entry's outcome says; uploads its subject-level resources first; the subjects become exactly what its datatype folder or session folder creates; only its subject changes; covers the entry on completion |
| Uploader.Project.ProcessSubject | bids-uploader.py:245-280 | ends as the subject folder's outcome says; the subjects become exactly what its entries create, up to the one that stops; only that subject changes; covers it on completion; a covered subject changes no container |
| Uploader.Project.ProcessTopEntry | bids-uploader.py:235-280 | ensures the entry's project resources and uploads, exactly so for a non-subject entry; for a subject directory adds exactly its subject and the subjects become what its folder creates; every other subject is unchanged |
| Uploader.Project.Run | bids-uploader.py:232-280 | ends as the tree's run outcome says; without subject folders nothing changes; the subjects become exactly what the walk creates, up to the step that stops; subjects not named by a subject folder are unchanged; a covered tree changes no container; on completion the tree is covered and every project resource present |
| Uploader.RunTwice | bids-uploader.py:232-280 | two runs over one tree end the same way, and after a completed first run the second creates no subject, experiment or scan |

## Left out

- Reading the project id, directory path and credentials (lines 13-16) and the fixed server URL (line 10) are not modelled. `root` is a parameter.
- Connecting to the server and looking up the project (lines 217-229) are left out. The `Project` constructor takes the state of a project that was found.
- Transferring file contents is not modelled, and neither is whether a transfer succeeds. An upload is recorded as an attempt. The script catches and prints every transfer failure and carries on, so no later step depends on it.
- `print` output is left out.
- **The file system.** The tree is a value, read once. The two listings of a datatype folder therefore see the same entries in the same order. An entry is either a file or a directory; symbolic links, special files and entries that vanish mid-run are not modelled. The listing order is whatever order the `Entry` sequences hold.
- **Server behaviour beyond find-or-create by label:**
  - Scans are assumed to be listed in creation order.
  - A new scan's id is the current count of scans, as the script computes it. A server that refuses an id already in use is not modelled.
  - Overwriting a file that is already in a resource folder is not modelled.
  - The server's rules on label characters are not modelled.
- Exceptions other than the two that end a run in the model are not modelled: the `IndexError` of an unreadable scan type and the failure to list a file. A lookup failing after a creation is one example of what is left out.
- Uploader.Project.ProcessSession: states only that uploads grow, not which uploads they are. The exact uploads of each datatype folder are stated by `Uploader.Project.ProcessDatatypeFolder`.
- Uploader.Project.ProcessSession: states only that resource folders grow. The exact resource folders of each datatype folder are stated by `Uploader.Project.ProcessDatatypeFolder`.
- Uploader.Project.ProcessSubject: states only that uploads and resource folders grow beyond those of each entry.
- Uploader.Project.ProcessSubjectEntry: states its subject-level uploads as a prefix of the new uploads and resource folders only as growth; the uploads and resource folders of its datatype folders are stated by `Uploader.Project.ProcessDatatypeFolder`.
- Uploader.Project.ProcessTopEntry: for a subject folder, states only that uploads and resource folders grow and that the project's `BIDS` folder is present. It is exact for every other entry.
- Uploader.Project.Run: states that uploads and resource folders only grow and that the project resources are present. It does not give the full sequence of uploads or resource folders of a run. The subjects, experiments and scans it leaves are stated exactly.
