/**
  The part of an XNAT server the uploader sees: inside one project, subjects
  keyed by name, each holding experiments keyed by name; each experiment has a
  kind and an ordered sequence of scans. Resource folders hang off any of these
  containers and are kept in one catalogue keyed by the owning container.

  Every creation the uploader performs is a find-or-create; the functions here
  give the state after one such step, and the lemmas say what it keeps.
*/
module Remote {
  import opened Wrappers

  /** Session and scan classes: MR (`MrSessionData`, `MrScanData`) or MEG. */
  datatype Kind = MR | MEG

  datatype Scan = Scan(id: nat, scanType: string, kind: Kind)

  datatype Experiment = Experiment(kind: Kind, scans: seq<Scan>)

  /** Experiments of one subject, by name. */
  type Experiments = map<string, Experiment>

  /** Subjects of the project, by name. */
  type Subjects = map<string, Experiments>

  /** The owner of a resource folder. A scan is named by its position in its experiment. */
  datatype Container =
    | ProjectLevel
    | SubjectLevel(subject: string)
    | ExperimentLevel(subject: string, experiment: string)
    | ScanLevel(subject: string, experiment: string, index: nat)

  /** Resource names of each container, in creation order. */
  type Resources = map<Container, seq<string>>

  /** One attempted transfer: a single file under a remote name, or a whole directory. */
  datatype Upload =
    | UploadFile(target: Container, resource: string, source: string, remoteName: string)
    | UploadDir(target: Container, resource: string, source: string)

  predicate Exists(subjects: Subjects, c: Container) {
    match c
    case ProjectLevel => true
    case SubjectLevel(s) => s in subjects
    case ExperimentLevel(s, e) => s in subjects && e in subjects[s]
    case ScanLevel(s, e, i) => s in subjects && e in subjects[s] && i < |subjects[s][e].scans|
  }

  predicate NoDuplicates(names: seq<string>) {
    forall i, j :: 0 <= i < j < |names| ==> names[i] != names[j]
  }

  /** The catalogue invariant: resources belong to existing containers and no container has a name twice. */
  predicate ResourcesValid(subjects: Subjects, resources: Resources) {
    forall c | c in resources :: Exists(subjects, c) && NoDuplicates(resources[c])
  }

  function Labels(resources: Resources, c: Container): seq<string> {
    if c in resources then resources[c] else []
  }

  /** Find-or-create of a resource folder: look the name up, add it only on a miss. */
  function WithResource(resources: Resources, c: Container, name: string): (r: Resources)
    ensures name in Labels(r, c)
    ensures name in Labels(resources, c) ==> r == resources
    ensures name !in Labels(resources, c) ==> Labels(r, c) == Labels(resources, c) + [name]
    ensures forall c' | c' != c :: Labels(r, c') == Labels(resources, c')
  {
    if name in Labels(resources, c) then resources
    else resources[c := Labels(resources, c) + [name]]
  }

  /** Find-or-create of several names in order. */
  function WithResources(resources: Resources, c: Container, names: seq<string>): (r: Resources)
    decreases |names|
  {
    if |names| == 0 then resources
    else WithResources(WithResource(resources, c, names[0]), c, names[1..])
  }

  /** Every container's names only grow. */
  ghost predicate ResourcesGrow(a: Resources, b: Resources) {
    forall c :: Labels(a, c) <= Labels(b, c)
  }

  lemma WithResourceKeepsValid(subjects: Subjects, resources: Resources, c: Container, name: string)
    requires ResourcesValid(subjects, resources) && Exists(subjects, c)
    ensures ResourcesValid(subjects, WithResource(resources, c, name))
    ensures ResourcesGrow(resources, WithResource(resources, c, name))
  {
  }

  lemma {:induction false} WithResourcesKeepsValid(subjects: Subjects, resources: Resources, c: Container, names: seq<string>)
    requires ResourcesValid(subjects, resources) && Exists(subjects, c)
    ensures ResourcesValid(subjects, WithResources(resources, c, names))
    ensures ResourcesGrow(resources, WithResources(resources, c, names))
    ensures forall l | l in names :: l in Labels(WithResources(resources, c, names), c)
    ensures forall c' | c' != c :: Labels(WithResources(resources, c, names), c') == Labels(resources, c')
    decreases |names|
  {
    if |names| > 0 {
      var r1 := WithResource(resources, c, names[0]);
      WithResourceKeepsValid(subjects, resources, c, names[0]);
      WithResourcesKeepsValid(subjects, r1, c, names[1..]);
      forall l | l in names ensures l in Labels(WithResources(resources, c, names), c) {
        if l != names[0] {
          assert l in names[1..];
        }
      }
    }
  }

  /** Asking for the same resource twice creates it at most once. */
  lemma WithResourceIdempotent(resources: Resources, c: Container, name: string)
    ensures WithResource(WithResource(resources, c, name), c, name) == WithResource(resources, c, name)
  {
  }

  /** Find-or-create never gives a container the same name twice. */
  lemma WithResourceNoDuplicates(resources: Resources, c: Container, name: string)
    requires NoDuplicates(Labels(resources, c))
    ensures NoDuplicates(Labels(WithResource(resources, c, name), c))
  {
  }

  /** Find-or-create of a subject: an empty subject under the name, only if none has it. */
  function WithSubject(subjects: Subjects, name: string): (r: Subjects)
  {
    if name in subjects then subjects else subjects[name := map[]]
  }

  /**
    Find-or-create of an experiment: reuse the one with this name; otherwise
    create one of the given kind, or nothing when there is no kind for it.
  */
  function WithExperiment(experiments: Experiments, name: string, kind: Option<Kind>): (r: Experiments)
  {
    if name in experiments then experiments
    else match kind
      case None => experiments
      case Some(k) => experiments[name := Experiment(k, [])]
  }

  predicate HasScanOfType(scans: seq<Scan>, t: string) {
    exists j :: 0 <= j < |scans| && scans[j].scanType == t
  }

  /**
    Find-or-create of a scan: nothing when a scan of exactly this type is present
    or there is no kind; otherwise one new scan whose id is the number of scans so far.
  */
  function WithScan(scans: seq<Scan>, t: string, kind: Option<Kind>): (r: seq<Scan>)
  {
    if HasScanOfType(scans, t) || kind.None? then scans
    else scans + [Scan(|scans|, t, kind.value)]
  }

  /** No two scans of an experiment have the same type. */
  predicate TypesDistinct(scans: seq<Scan>) {
    forall i, j :: 0 <= i < j < |scans| ==> scans[i].scanType != scans[j].scanType
  }

  /** Scan ids equal their positions (true of experiments whose scans this uploader created). */
  predicate IdsArePositions(scans: seq<Scan>) {
    forall j :: 0 <= j < |scans| ==> scans[j].id == j
  }

  /** Subject find-or-create: the name is present afterwards, at most one subject is added and existing ones are untouched. */
  lemma WithSubjectSpec(subjects: Subjects, name: string)
    ensures name in WithSubject(subjects, name)
    ensures WithSubject(subjects, name).Keys == subjects.Keys + {name}
    ensures forall s | s in subjects :: WithSubject(subjects, name)[s] == subjects[s]
    ensures name !in subjects ==> WithSubject(subjects, name)[name] == map[]
    ensures WithSubject(WithSubject(subjects, name), name) == WithSubject(subjects, name)
  {
  }

  /** Experiment find-or-create: present afterwards iff a kind exists or it was there; at most one new, existing ones untouched. */
  lemma WithExperimentSpec(experiments: Experiments, name: string, kind: Option<Kind>)
    ensures name in WithExperiment(experiments, name, kind) <==> name in experiments || kind.Some?
    ensures WithExperiment(experiments, name, kind).Keys <= experiments.Keys + {name}
    ensures forall l | l in experiments :: WithExperiment(experiments, name, kind)[l] == experiments[l]
    ensures name !in experiments && kind.Some? ==> WithExperiment(experiments, name, kind)[name] == Experiment(kind.value, [])
    ensures WithExperiment(WithExperiment(experiments, name, kind), name, kind) == WithExperiment(experiments, name, kind)
  {
  }

  /**
    Scan find-or-create: existing scans are kept as a prefix, at most one scan is
    added and only when no scan has exactly the type; the new scan has that type,
    the given kind and the number of earlier scans as its id; with a kind a scan
    of the type exists afterwards; repeating the call changes nothing; ids stay
    positions and types stay distinct.
  */
  lemma WithScanSpec(scans: seq<Scan>, t: string, kind: Option<Kind>)
    ensures scans <= WithScan(scans, t, kind)
    ensures |WithScan(scans, t, kind)| <= |scans| + 1
    ensures |WithScan(scans, t, kind)| == |scans| + 1 <==> !HasScanOfType(scans, t) && kind.Some?
    ensures kind.Some? ==> HasScanOfType(WithScan(scans, t, kind), t)
    ensures WithScan(WithScan(scans, t, kind), t, kind) == WithScan(scans, t, kind)
    ensures |WithScan(scans, t, kind)| == |scans| + 1 ==> WithScan(scans, t, kind)[|scans|] == Scan(|scans|, t, kind.value)
    ensures IdsArePositions(scans) ==> IdsArePositions(WithScan(scans, t, kind))
    ensures TypesDistinct(scans) ==> TypesDistinct(WithScan(scans, t, kind))
  {
    var r := WithScan(scans, t, kind);
    if !HasScanOfType(scans, t) && kind.Some? {
      assert r[|scans|].scanType == t;
    }
  }

  /** Scans of a longer prefix-extension still include every type the shorter one had. */
  lemma HasScanOfTypeGrows(a: seq<Scan>, b: seq<Scan>, t: string)
    requires a <= b && HasScanOfType(a, t)
    ensures HasScanOfType(b, t)
  {
    var j :| 0 <= j < |a| && a[j].scanType == t;
    assert b[j] == a[j];
  }

  /**
    b extends a: no subject, experiment or scan of a has gone, kinds are kept,
    and each experiment's scans in a are a prefix of its scans in b.
  */
  ghost predicate Extends(a: Subjects, b: Subjects) {
    forall s | s in a :: s in b && ExperimentsExtend(a[s], b[s])
  }

  ghost predicate ExperimentsExtend(a: Experiments, b: Experiments) {
    forall l | l in a :: l in b && b[l].kind == a[l].kind && a[l].scans <= b[l].scans
  }

  lemma ExtendsReflexive(a: Subjects)
    ensures Extends(a, a)
  {
  }

  lemma ExtendsTransitive(a: Subjects, b: Subjects, c: Subjects)
    requires Extends(a, b) && Extends(b, c)
    ensures Extends(a, c)
  {
    forall s | s in a ensures s in c && ExperimentsExtend(a[s], c[s]) {
      forall l | l in a[s] ensures l in c[s] && c[s][l].kind == a[s][l].kind && a[s][l].scans <= c[s][l].scans {
        assert l in b[s];
      }
    }
  }

  /** A container that exists keeps existing as the subjects grow; so does the catalogue invariant. */
  lemma ExtendsKeepsValid(a: Subjects, b: Subjects, resources: Resources)
    requires Extends(a, b) && ResourcesValid(a, resources)
    ensures ResourcesValid(b, resources)
  {
    forall c | c in resources ensures Exists(b, c) {
      assert Exists(a, c);
      if c.ScanLevel? {
        assert a[c.subject][c.experiment].scans <= b[c.subject][c.experiment].scans;
      }
    }
  }

  lemma WithSubjectExtends(subjects: Subjects, name: string)
    ensures Extends(subjects, WithSubject(subjects, name))
  {
  }

  lemma WithExperimentExtends(subjects: Subjects, s: string, name: string, kind: Option<Kind>)
    requires s in subjects
    ensures Extends(subjects, subjects[s := WithExperiment(subjects[s], name, kind)])
  {
  }

  /** The subjects with one experiment's scans replaced. */
  function SetScans(subjects: Subjects, s: string, e: string, scans: seq<Scan>): Subjects
    requires s in subjects && e in subjects[s]
  {
    subjects[s := subjects[s][e := subjects[s][e].(scans := scans)]]
  }

  lemma SetScansSame(subjects: Subjects, s: string, e: string)
    requires s in subjects && e in subjects[s]
    ensures SetScans(subjects, s, e, subjects[s][e].scans) == subjects
  {
    assert subjects[s][e].(scans := subjects[s][e].scans) == subjects[s][e];
    assert subjects[s][e := subjects[s][e]] == subjects[s];
  }

  lemma SetScansTwice(subjects: Subjects, s: string, e: string, first: seq<Scan>, second: seq<Scan>)
    requires s in subjects && e in subjects[s]
    ensures SetScans(SetScans(subjects, s, e, first), s, e, second) == SetScans(subjects, s, e, second)
  {
    var mid: Subjects := SetScans(subjects, s, e, first);
    assert mid[s][e].(scans := second) == subjects[s][e].(scans := second);
    assert mid[s][e := mid[s][e].(scans := second)] == subjects[s][e := subjects[s][e].(scans := second)];
  }

  /** Appending scans to one experiment extends the subjects. */
  lemma SetScansExtends(subjects: Subjects, s: string, e: string, scans: seq<Scan>)
    requires s in subjects && e in subjects[s] && subjects[s][e].scans <= scans
    ensures Extends(subjects, SetScans(subjects, s, e, scans))
  {
  }

  lemma ResourcesGrowTransitive(a: Resources, b: Resources, c: Resources)
    requires ResourcesGrow(a, b) && ResourcesGrow(b, c)
    ensures ResourcesGrow(a, c)
  {
    forall k ensures Labels(a, k) <= Labels(c, k) {
      assert Labels(a, k) <= Labels(b, k);
      assert Labels(b, k) <= Labels(c, k);
    }
  }
}
