/** When the joined string of autoResolveDrifts and the fields of findMatchingUnresolved identify the same events. */
module DriftKeys {
  import opened Wrappers
  import opened Text
  import opened DriftDetector
  import opened DriftRuns

  ghost predicate Usable(titles: set<string>, k: Key) {
    k.title in titles && k.sourcePath != Some("")
  }

  /** Followed by the separator, no title is the beginning of another. */
  ghost predicate Separable(titles: set<string>) {
    forall s, t | s in titles && t in titles && s != t :: !(s + "::" <= t + "::")
  }

  lemma JoinedDetector(a: Key, b: Key)
    requires Joined(a) == Joined(b)
    ensures a.detector == b.detector
  {
    assert Joined(a)[0] == DetectorName(a.detector)[0] && Joined(b)[0] == DetectorName(b.detector)[0];
  }

  lemma JoinedTitles(a: Key, b: Key)
    requires Joined(a) == Joined(b) && |a.title| <= |b.title|
    ensures a.title + "::" <= b.title + "::"
    ensures a.title == b.title ==> a.sourcePath.GetOr("") == b.sourcePath.GetOr("")
  {
    JoinedDetector(a, b);
    var d, p, q := DetectorName(a.detector) + "::", a.sourcePath.GetOr(""), b.sourcePath.GetOr("");
    assert Joined(a) == d + (a.title + "::" + p) && Joined(b) == d + (b.title + "::" + q);
    assert a.title + "::" + p == Joined(a)[|d|..] == b.title + "::" + q;
    assert a.title + "::" == (a.title + "::" + p)[..|a.title| + 2];
    assert p == (a.title + "::" + p)[|a.title| + 2..] && q == (b.title + "::" + q)[|b.title| + 2..];
  }

  lemma ConfusablePaths(s: string, t: string, d: DetectorType) returns (a: Key, b: Key)
    requires s != t && s + "::" <= t + "::"
    ensures a.title == s && b.title == t && a.sourcePath != Some("") && b.sourcePath != Some("")
    ensures a != b && Joined(a) == Joined(b)
  {
    var x := (t + "::")[|s| + 2..];
    assert t + "::" == s + "::" + x;
    assert t == (t + "::")[..|t|] && s == (s + "::")[..|s|];
    assert |t| > |s|;
    a, b := Key(d, s, Some(x)), Key(d, t, None);
    assert Joined(b) == DetectorName(d) + "::" + (t + "::") == DetectorName(d) + "::" + (s + "::" + x);
  }

  /** For non-empty paths, the joined strings are faithful exactly when the titles are separable. */
  lemma JoinedFaithfulIff(titles: set<string>)
    ensures (forall a, b | Usable(titles, a) && Usable(titles, b) && Joined(a) == Joined(b) :: a == b)
       <==> Separable(titles)
  {
    if Separable(titles) {
      forall a, b | Usable(titles, a) && Usable(titles, b) && Joined(a) == Joined(b)
        ensures a == b
      {
        JoinedDetector(a, b);
        if |a.title| <= |b.title| {
          JoinedTitles(a, b);
        } else {
          JoinedTitles(b, a);
        }
      }
    } else {
      var s, t :| s in titles && t in titles && s != t && s + "::" <= t + "::";
      var a, b := ConfusablePaths(s, t, STRUCTURE);
      assert Usable(titles, a) && Usable(titles, b);
    }
  }

  lemma BeginningOfAnother(s: string, t: string)
    requires s != t && s + "::" <= t + "::"
    ensures Contains(t, "::") || EndsWith(t, ":")
  {
    var u := t + "::";
    assert t == u[..|t|] && s == (s + "::")[..|s|];
    assert u[|s|] == (s + "::")[|s|] == ':' && u[|s| + 1] == (s + "::")[|s| + 1] == ':';
    if |s| + 1 < |t| {
      assert t[|s|..|s| + 2] == "::";
      assert OccursAt(t, "::", |s|);
    } else {
      assert t[|t| - 1..] == ":";
    }
  }

  /** Titles without "::" that do not end in ':' are separable. */
  lemma PlainTitlesSeparable(titles: set<string>)
    requires forall t | t in titles :: !Contains(t, "::") && !EndsWith(t, ":")
    ensures Separable(titles)
  {
    forall s, t | s in titles && t in titles && s != t
      ensures !(s + "::" <= t + "::")
    {
      if s + "::" <= t + "::" {
        BeginningOfAnother(s, t);
      }
    }
  }

  /** A missing path and an empty one are always confused. */
  lemma EmptyPathConfused(d: DetectorType, title: string)
    ensures Joined(Key(d, title, None)) == Joined(Key(d, title, Some("")))
  {
  }

  // ----- faithfulness is what the edge accounts need -----

  function Showing(k: Key, at: nat): Scan {
    Scan([Finding(k.detector, LOW, k.title, "", k.sourcePath, None, None)], at)
  }

  ghost predicate DrawnFrom(scans: seq<Scan>, keys: set<Key>) {
    forall k | ScannedKey(scans, k) :: k in keys
  }

  ghost predicate EdgesCounted(scans: seq<Scan>) {
    forall k :: Created(Run(scans), k) == RisingEdges(scans, k) && Resolved(Run(scans), k) == FallingEdges(scans, k)
  }

  ghost predicate JoinedInjective(keys: set<Key>) {
    forall a, b | a in keys && b in keys && Joined(a) == Joined(b) :: a == b
  }

  lemma TwoScans(first: Scan, second: Scan, k: Key)
    ensures Run([first, second]) == Cycle(Cycle([], first.findings, first.at), second.findings, second.at)
    ensures FallingEdges([first, second], k) == if InScan(first.findings, k) && !InScan(second.findings, k) then 1 else 0
  {
    assert [first, second][..1] == [first] && [first][..0] == [];
    assert Run([]) == [];
    assert FallingEdges([first], k) == 0;
  }

  lemma ConfusedKeysStayOpen(a: Key, b: Key) returns (scans: seq<Scan>)
    requires a != b && Joined(a) == Joined(b)
    ensures DrawnFrom(scans, {a, b}) && !EdgesCounted(scans)
  {
    var first, second := Showing(a, 0), Showing(b, 1);
    scans := [first, second];
    assert forall k :: (InScan(first.findings, k) <==> k == a) && (InScan(second.findings, k) <==> k == b) by {
      assert KeyOf(first.findings[0]) == a && KeyOf(second.findings[0]) == b;
      assert first.findings[0] in first.findings && second.findings[0] in second.findings;
    }
    TwoScans(first, second, a);
    var middle := Cycle([], first.findings, 0);
    CycleCounts([], first.findings, 0, a);
    CycleCounts(middle, second.findings, 1, a);
    assert Joined(a) in JoinedKeys(first.findings) && Joined(b) in JoinedKeys(second.findings);
    EveryEventOpenOrResolved(Run(scans), a);
  }

  /** Every run over a set of keys is accounted for by edges exactly when the joined strings tell the set's keys apart. */
  lemma EdgesCountedIffInjective(keys: set<Key>)
    ensures (forall scans | DrawnFrom(scans, keys) :: EdgesCounted(scans)) <==> JoinedInjective(keys)
  {
    if JoinedInjective(keys) {
      forall scans | DrawnFrom(scans, keys)
        ensures EdgesCounted(scans)
      {
        assert Faithful(scans);
        forall k
          ensures Created(Run(scans), k) == RisingEdges(scans, k) && Resolved(Run(scans), k) == FallingEdges(scans, k)
        {
          EventsAreEdges(scans, k);
        }
      }
    } else {
      var a, b :| a in keys && b in keys && Joined(a) == Joined(b) && a != b;
      var scans := ConfusedKeysStayOpen(a, b);
      assert DrawnFrom(scans, keys);
    }
  }
}
