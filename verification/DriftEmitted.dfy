/** The keys the detectors themselves produce, and why no two of them are confused. */
module DriftEmitted {
  import opened Wrappers
  import opened Text
  import opened ModuleTree
  import opened DriftDetector
  import opened DriftRuns
  import opened DriftKeys

  /** What the structure and policy checks can report; the API contract check reports nothing. */
  datatype Report =
    | SourceUnreadable
    | DocumentMissing
    | UndocumentedModule(name: string)
    | MissingModule(name: string)
    | NoLifecycle(path: string)
    | AnyType(path: string)
    | ConsoleUse(path: string)

  const DOCUMENT := "docs/architecture.md"

  function Title(r: Report): string {
    match r
    case SourceUnreadable => "Cannot scan backend/src/ directory"
    case DocumentMissing => "Architecture documentation not found"
    case UndocumentedModule(name) => "Undocumented module: " + name
    case MissingModule(name) => "Missing module: " + name
    case NoLifecycle(_) => "Missing lifecycle declaration"
    case AnyType(_) => "`any` type usage detected"
    case ConsoleUse(_) => "console.* usage in production code"
  }

  function ReportKey(r: Report): Key {
    match r
    case SourceUnreadable => Key(STRUCTURE, Title(r), None)
    case DocumentMissing => Key(STRUCTURE, Title(r), Some(DOCUMENT))
    case UndocumentedModule(name) => Key(STRUCTURE, Title(r), Some("backend/src/" + name + "/"))
    case MissingModule(_) => Key(STRUCTURE, Title(r), Some(DOCUMENT))
    case NoLifecycle(path) => Key(POLICY, Title(r), Some(path))
    case AnyType(path) => Key(POLICY, Title(r), Some(path))
    case ConsoleUse(path) => Key(POLICY, Title(r), Some(path))
  }

  ghost predicate Emitted(k: Key) {
    exists r :: ReportKey(r) == k
  }

  /** What follows the detector and its separator in the joined string. */
  function Tail(k: Key): string {
    k.title + "::" + k.sourcePath.GetOr("")
  }

  lemma SameTail(a: Key, b: Key)
    requires Joined(a) == Joined(b)
    ensures a.detector == b.detector && Tail(a) == Tail(b)
  {
    JoinedDetector(a, b);
    var d := DetectorName(a.detector) + "::";
    assert Joined(a) == d + Tail(a) && Joined(b) == d + Tail(b);
    assert Tail(a) == Joined(a)[|d|..] == Joined(b)[|d|..];
  }

  /** Within one detector the first letter tells the kind of report. */
  lemma FirstLetter(r: Report)
    ensures |Tail(ReportKey(r))| > 0
    ensures Tail(ReportKey(r))[0] == match r
                                     case SourceUnreadable => 'C'
                                     case DocumentMissing => 'A'
                                     case UndocumentedModule(_) => 'U'
                                     case MissingModule(_) => 'M'
                                     case NoLifecycle(_) => 'M'
                                     case AnyType(_) => '`'
                                     case ConsoleUse(_) => 'c'
  {
    assert Tail(ReportKey(r))[0] == Title(r)[0];
  }

  lemma Framed(left: string, x: string, y: string, sep: string, right: string)
    requires left + x + sep + right == left + y + sep + right
    ensures x == y
  {
    var w, n := left + x + sep + right, |sep| + |right|;
    assert x == w[|left|..|w| - n] && y == w[|left|..|w| - n];
  }

  /** A name repeated in title and path has only one reading, as the length of the whole fixes its own. */
  lemma FramedTwice(left: string, x: string, y: string, sep: string, middle: string, right: string)
    requires left + x + sep + (middle + x + right) == left + y + sep + (middle + y + right)
    ensures x == y
  {
    var w := left + x + sep + (middle + x + right);
    assert |x| == |y|;
    assert x == w[|left|..|left| + |x|] && y == w[|left|..|left| + |x|];
  }

  lemma SamePath(title: string, p: string, q: string)
    requires title + "::" + p == title + "::" + q
    ensures p == q
  {
    assert p == (title + "::" + p)[|title + "::"|..];
  }

  lemma SameUndocumented(x: string, y: string)
    requires Tail(ReportKey(UndocumentedModule(x))) == Tail(ReportKey(UndocumentedModule(y)))
    ensures x == y
  {
    FramedTwice("Undocumented module: ", x, y, "::", "backend/src/", "/");
  }

  lemma SameMissing(x: string, y: string)
    requires Tail(ReportKey(MissingModule(x))) == Tail(ReportKey(MissingModule(y)))
    ensures x == y
  {
    Framed("Missing module: ", x, y, "::", DOCUMENT);
  }

  /** Different reports never share a joined string. */
  lemma ReportsDiffer(a: Report, b: Report)
    requires Joined(ReportKey(a)) == Joined(ReportKey(b))
    ensures a == b
  {
    SameTail(ReportKey(a), ReportKey(b));
    FirstLetter(a);
    FirstLetter(b);
    if a.UndocumentedModule? {
      SameUndocumented(a.name, b.name);
    } else if a.MissingModule? {
      SameMissing(a.name, b.name);
    } else if a.NoLifecycle? || a.AnyType? || a.ConsoleUse? {
      SamePath(Title(a), a.path, b.path);
    }
  }

  /** The reports of the structure check, as their keys are stored. */
  lemma ModuleReportKeys(name: string)
    ensures ReportKey(UndocumentedModule(name))
         == Key(STRUCTURE, "Undocumented module: " + name, Some("backend/src/" + name + "/"))
    ensures ReportKey(MissingModule(name)) == Key(STRUCTURE, "Missing module: " + name, Some("docs/architecture.md"))
  {
  }

  /** The scans report what the detectors can report. */
  ghost predicate FromDetectors(scans: seq<Scan>) {
    forall k | ScannedKey(scans, k) :: Emitted(k)
  }

  /** Every sequence of scans the program can make is faithful, so a key's events are exactly its edges. */
  lemma ProgramRunsAreCounted(scans: seq<Scan>)
    requires FromDetectors(scans)
    ensures Faithful(scans) && EdgesCounted(scans)
    ensures forall k :: HasOpen(Run(scans), k) <==> Shown(scans, k)
  {
    forall a, b | ScannedKey(scans, a) && ScannedKey(scans, b) && Joined(a) == Joined(b)
      ensures a == b
    {
      var r, q :| ReportKey(r) == a && ReportKey(q) == b;
      ReportsDiffer(r, q);
    }
    forall k
      ensures Created(Run(scans), k) == RisingEdges(scans, k) && Resolved(Run(scans), k) == FallingEdges(scans, k)
      ensures HasOpen(Run(scans), k) <==> Shown(scans, k)
    {
      EventsAreEdges(scans, k);
      EveryEventOpenOrResolved(Run(scans), k);
    }
  }

  // ----- the structure check -----

  /** The directories the check considers: those of backend/src whose name does not start with "__". */
  predicate IsModule(directories: seq<string>, name: string) {
    name in directories && !StartsWith(name, "__")
  }

  function Documented(document: string): set<string> {
    ParseLines(Lines(document), false, {})
  }

  /** The module reports among these are those that the directories and the document call for. */
  ghost predicate Compares(reports: seq<Report>, directories: seq<string>, document: string) {
    forall name ::
      && (UndocumentedModule(name) in reports <==>
            name in directories && !("__" <= name) && name !in Documented(document))
      && (MissingModule(name) in reports <==>
            name in Documented(document) && (name !in directories || "__" <= name))
  }

  /** `directories` and `document` are absent when they cannot be read. */
  method DetectStructureDrift(directories: Option<seq<string>>, document: Option<string>) returns (reports: seq<Report>)
    ensures directories.None? ==> reports == [SourceUnreadable]
    ensures directories.Some? && document.None? ==> reports == [DocumentMissing]
    ensures directories.Some? && document.Some? ==> Compares(reports, directories.value, document.value)
    ensures directories.Some? && document.Some? ==> forall r | r in reports :: r.UndocumentedModule? || r.MissingModule?
  {
    if directories.None? {
      return [SourceUnreadable];
    }
    if document.None? {
      return [DocumentMissing];
    }
    var names := directories.value;
    var documented := ParseDocumentedModules(document.value);
    reports := [];
    for n := 0 to |names|
      invariant forall r :: r in reports <==> r.UndocumentedModule? && IsModule(names[..n], r.name) && r.name !in documented
    {
      assert names[..n + 1] == names[..n] + [names[n]];
      if !StartsWith(names[n], "__") && names[n] !in documented {
        reports := reports + [UndocumentedModule(names[n])];
      }
    }
    assert names[..|names|] == names;
    var left := documented;
    while left != {}
      invariant left <= documented
      invariant forall r :: r in reports <==>
                  || (r.UndocumentedModule? && IsModule(names, r.name) && r.name !in documented)
                  || (r.MissingModule? && r.name in documented - left && !IsModule(names, r.name))
      decreases |left|
    {
      var name :| name in left;
      left := left - {name};
      if !IsModule(names, name) {
        reports := reports + [MissingModule(name)];
      }
    }
  }

  /** The findings of a scan carry exactly the keys of these reports. */
  ghost predicate Carries(findings: seq<Finding>, reports: seq<Report>) {
    forall k :: InScan(findings, k) <==> exists r :: r in reports && ReportKey(r) == k
  }

  lemma OpenIffReported(scans: seq<Scan>, reports: seq<Report>, r: Report)
    requires scans != [] && Carries(scans[|scans| - 1].findings, reports)
    requires FromDetectors(scans)
    ensures HasOpen(Run(scans), ReportKey(r)) <==> r in reports
  {
    var k := ReportKey(r);
    assert HasOpen(Run(scans), k) <==> InScan(scans[|scans| - 1].findings, k) by {
      ProgramRunsAreCounted(scans);
      assert HasOpen(Run(scans), k) <==> Shown(scans, k);
    }
    CarriedOnce(reports, r);
  }

  lemma CarriedOnce(reports: seq<Report>, r: Report)
    ensures r in reports <==> exists q :: q in reports && ReportKey(q) == ReportKey(r)
  {
    forall q | q in reports && ReportKey(q) == ReportKey(r)
      ensures q == r
    {
      ReportsDiffer(q, r);
    }
  }

  /** The reports with an open event after a run. */
  ghost function OpenReports(scans: seq<Scan>): iset<Report> {
    iset r | HasOpen(Run(scans), ReportKey(r))
  }

  /** After every run the open reports are exactly those of the last scan. */
  lemma OpenReportsAreTheLast(scans: seq<Scan>, reports: seq<Report>)
    requires scans != [] && FromDetectors(scans) && Carries(scans[|scans| - 1].findings, reports)
    ensures OpenReports(scans) == iset r | r in reports
  {
    forall r
      ensures r in OpenReports(scans) <==> r in reports
    {
      OpenIffReported(scans, reports, r);
    }
  }

  /**
   * So a module has an open "undocumented" event exactly when the last scan found its directory and no entry for it in
   * the document, and an open "missing" event exactly when it found the entry and no directory.
   */
  lemma OpenEventsMatchTheTree(scans: seq<Scan>, reports: seq<Report>, directories: seq<string>, document: string, name: string)
    requires scans != [] && FromDetectors(scans) && Carries(scans[|scans| - 1].findings, reports)
    requires Compares(reports, directories, document)
    ensures UndocumentedModule(name) in OpenReports(scans)
       <==> name in directories && !("__" <= name) && name !in Documented(document)
    ensures MissingModule(name) in OpenReports(scans)
       <==> name in Documented(document) && (name !in directories || "__" <= name)
  {
    OpenReportsAreTheLast(scans, reports);
  }
}
