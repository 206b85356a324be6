/** What one cycle, and any sequence of cycles, does to the drift events of a key. */
module DriftRuns {
  import opened Wrappers
  import opened DriftDetector

  function Created(events: seq<DriftEvent>, k: Key): nat {
    if events == [] then 0
    else Created(events[..|events| - 1], k) + if KeyOf(events[|events| - 1].finding) == k then 1 else 0
  }

  function StillOpen(events: seq<DriftEvent>, k: Key): nat {
    if events == [] then 0
    else StillOpen(events[..|events| - 1], k) + if IsOpen(events[|events| - 1], k) then 1 else 0
  }

  function Resolved(events: seq<DriftEvent>, k: Key): nat {
    if events == [] then 0
    else
      var e := events[|events| - 1];
      Resolved(events[..|events| - 1], k) + if e.isResolved && KeyOf(e.finding) == k then 1 else 0
  }

  lemma {:induction false} EveryEventOpenOrResolved(events: seq<DriftEvent>, k: Key)
    ensures Created(events, k) == StillOpen(events, k) + Resolved(events, k)
    ensures StillOpen(events, k) > 0 <==> HasOpen(events, k)
  {
    if events != [] {
      var rest := events[..|events| - 1];
      EveryEventOpenOrResolved(rest, k);
      assert events == rest + [events[|events| - 1]];
    }
  }

  lemma {:induction false} ResolveCounts(events: seq<DriftEvent>, joined: set<string>, now: nat, k: Key)
    ensures Created(ResolveMissing(events, joined, now), k) == Created(events, k)
    ensures StillOpen(ResolveMissing(events, joined, now), k) == if Joined(k) in joined then StillOpen(events, k) else 0
  {
    if events != [] {
      var rest := events[..|events| - 1];
      ResolveCounts(rest, joined, now, k);
      var r := ResolveMissing(events, joined, now);
      assert r[..|r| - 1] == ResolveMissing(rest, joined, now);
    }
  }

  lemma {:induction false} OpenCounts(events: seq<DriftEvent>, scan: seq<Finding>, now: nat, k: Key)
    ensures var added := if InScan(scan, k) && !HasOpen(events, k) then 1 else 0;
            && Created(OpenNew(events, scan, now), k) == Created(events, k) + added
            && StillOpen(OpenNew(events, scan, now), k) == StillOpen(events, k) + added
    decreases scan
  {
    if scan != [] {
      var event := NewEvent(|events|, scan[0], now);
      var next := if HasOpen(events, KeyOf(scan[0])) then events else events + [event];
      OpenCounts(next, scan[1..], now, k);
      assert InScan(scan, k) <==> KeyOf(scan[0]) == k || InScan(scan[1..], k);
      assert (events + [event])[..|events|] == events;
      assert HasOpen(events + [event], k) <==> HasOpen(events, k) || IsOpen(event, k);
    }
  }

  /** The accounts of one key over one cycle, on any table. */
  lemma CycleCounts(events: seq<DriftEvent>, scan: seq<Finding>, now: nat, k: Key)
    ensures var after, n := Cycle(events, scan, now), StillOpen(events, k);
      && Created(after, k) == Created(events, k) + (if InScan(scan, k) && n == 0 then 1 else 0)
      && StillOpen(after, k) == (if Joined(k) !in JoinedKeys(scan) then 0 else if InScan(scan, k) && n == 0 then 1 else n)
  {
    var middle := ResolveMissing(events, JoinedKeys(scan), now);
    ResolveCounts(events, JoinedKeys(scan), now, k);
    EveryEventOpenOrResolved(middle, k);
    EveryEventOpenOrResolved(events, k);
    OpenCounts(middle, scan, now, k);
    assert InScan(scan, k) ==> Joined(k) in JoinedKeys(scan);
  }

  /** After a cycle a key is open if the scan shows it, or if it was open and shares its joined key with the scan. */
  lemma CycleOpenKeys(events: seq<DriftEvent>, scan: seq<Finding>, now: nat, k: Key)
    ensures HasOpen(Cycle(events, scan, now), k)
       <==> InScan(scan, k) || (HasOpen(events, k) && Joined(k) in JoinedKeys(scan))
  {
    CycleCounts(events, scan, now, k);
    EveryEventOpenOrResolved(events, k);
    EveryEventOpenOrResolved(Cycle(events, scan, now), k);
    assert InScan(scan, k) ==> Joined(k) in JoinedKeys(scan);
  }

  /** No open event is mistaken for a finding with another key. */
  ghost predicate NoConfusion(events: seq<DriftEvent>, scan: seq<Finding>) {
    forall k | HasOpen(events, k) && Joined(k) in JoinedKeys(scan) :: InScan(scan, k)
  }

  /** The open keys after a cycle are the scan's keys exactly when no open event shares a joined key it should not. */
  lemma CycleMatchesScan(events: seq<DriftEvent>, scan: seq<Finding>, now: nat)
    ensures (forall k :: HasOpen(Cycle(events, scan, now), k) <==> InScan(scan, k)) <==> NoConfusion(events, scan)
  {
    forall k
      ensures HasOpen(Cycle(events, scan, now), k)
         <==> InScan(scan, k) || (HasOpen(events, k) && Joined(k) in JoinedKeys(scan))
    {
      CycleOpenKeys(events, scan, now, k);
    }
  }

  /** The finding is the first of its key in the scan. */
  ghost predicate FirstFound(scan: seq<Finding>, f: Finding) {
    exists j :: 0 <= j < |scan| && scan[j] == f && forall i | 0 <= i < j :: KeyOf(scan[i]) != KeyOf(f)
  }

  lemma FirstFoundLater(scan: seq<Finding>, f: Finding)
    requires scan != [] && FirstFound(scan[1..], f) && KeyOf(scan[0]) != KeyOf(f)
    ensures FirstFound(scan, f)
  {
    var rest := scan[1..];
    var j :| 0 <= j < |rest| && rest[j] == f && forall i | 0 <= i < j :: KeyOf(rest[i]) != KeyOf(f);
    assert scan[j + 1] == f;
    assert forall i | 1 <= i < j + 1 :: scan[i] == rest[i - 1];
  }

  lemma {:induction false} OpenNewAppends(events: seq<DriftEvent>, scan: seq<Finding>, now: nat)
    ensures events <= OpenNew(events, scan, now)
    ensures forall i | |events| <= i < |OpenNew(events, scan, now)| ::
              var e := OpenNew(events, scan, now)[i];
              e == NewEvent(i, e.finding, now) && FirstFound(scan, e.finding) && !HasOpen(events, KeyOf(e.finding))
    decreases scan
  {
    if scan != [] {
      var event := NewEvent(|events|, scan[0], now);
      var next := if HasOpen(events, KeyOf(scan[0])) then events else events + [event];
      OpenNewAppends(next, scan[1..], now);
      assert forall k | HasOpen(events, k) :: HasOpen(next, k);
      assert HasOpen(next, KeyOf(scan[0])) by {
        assert next == events + [event] ==> event in next;
      }
      forall i | |next| <= i < |OpenNew(events, scan, now)|
        ensures FirstFound(scan, OpenNew(events, scan, now)[i].finding)
      {
        FirstFoundLater(scan, OpenNew(events, scan, now)[i].finding);
      }
      assert scan[0] == event.finding && FirstFound(scan, event.finding);
    }
  }

  /** A returned event is open, detected now, and carries the first finding of its key. */
  ghost predicate IsSaved(e: DriftEvent, id: nat, scan: seq<Finding>, now: nat) {
    e == DriftEvent(id, e.finding, false, None, now) && FirstFound(scan, e.finding)
  }

  lemma SavedOnce(events: seq<DriftEvent>, scan: seq<Finding>, now: nat, saved: seq<DriftEvent>, k: Key)
    requires Cycle(events, scan, now) == ResolveMissing(events, JoinedKeys(scan), now) + saved
    ensures Created(saved, k) == if InScan(scan, k) && !HasOpen(events, k) then 1 else 0
  {
    var middle := ResolveMissing(events, JoinedKeys(scan), now);
    CycleCounts(events, scan, now, k);
    EveryEventOpenOrResolved(events, k);
    ResolveCounts(events, JoinedKeys(scan), now, k);
    CreatedConcat(middle, saved, k);
  }

  /** The events a cycle returns are fresh events for the scanned keys that were not open, one each. */
  lemma SavedAreNewlyOpened(events: seq<DriftEvent>, scan: seq<Finding>, now: nat, saved: seq<DriftEvent>)
    requires |events| <= |Cycle(events, scan, now)| && saved == Cycle(events, scan, now)[|events|..]
    ensures forall k :: Created(saved, k) == if InScan(scan, k) && !HasOpen(events, k) then 1 else 0
    ensures forall i | 0 <= i < |saved| :: IsSaved(saved[i], |events| + i, scan, now)
  {
    var middle := ResolveMissing(events, JoinedKeys(scan), now);
    var after := Cycle(events, scan, now);
    OpenNewAppends(middle, scan, now);
    assert after == middle + saved;
    forall i | 0 <= i < |saved|
      ensures IsSaved(saved[i], |events| + i, scan, now)
    {
      assert saved[i] == after[|events| + i];
    }
    forall k
      ensures Created(saved, k) == if InScan(scan, k) && !HasOpen(events, k) then 1 else 0
    {
      SavedOnce(events, scan, now, saved, k);
    }
  }

  lemma {:induction false} CreatedConcat(a: seq<DriftEvent>, b: seq<DriftEvent>, k: Key)
    ensures Created(a + b, k) == Created(a, k) + Created(b, k)
  {
    if b == [] {
      assert a + b == a;
    } else {
      CreatedConcat(a, b[..|b| - 1], k);
      assert (a + b)[..|a + b| - 1] == a + b[..|b| - 1];
    }
  }

  lemma {:induction false} NothingToOpen(events: seq<DriftEvent>, scan: seq<Finding>, now: nat)
    requires forall f | f in scan :: HasOpen(events, KeyOf(f))
    ensures OpenNew(events, scan, now) == events
  {
    if scan != [] {
      assert scan[0] in scan;
      NothingToOpen(events, scan[1..], now);
    }
  }

  /** Repeating a scan changes nothing and therefore returns nothing. */
  lemma RepeatedScanIsSilent(events: seq<DriftEvent>, scan: seq<Finding>, now: nat, later: nat)
    ensures Cycle(Cycle(events, scan, now), scan, later) == Cycle(events, scan, now)
  {
    var after := Cycle(events, scan, now);
    forall e | e in after
      ensures Settle(e, JoinedKeys(scan), later) == e
    {
      var k := KeyOf(e.finding);
      if !e.isResolved {
        CycleOpenKeys(events, scan, now, k);
        assert IsOpen(e, k);
        assert InScan(scan, k) ==> Joined(k) in JoinedKeys(scan);
      }
    }
    assert ResolveMissing(after, JoinedKeys(scan), later) == after;
    forall f | f in scan
      ensures HasOpen(after, KeyOf(f))
    {
      CycleOpenKeys(events, scan, now, KeyOf(f));
    }
    NothingToOpen(after, scan, later);
  }

  // ----- runs -----

  datatype Scan = Scan(findings: seq<Finding>, at: nat)

  /** The table after a sequence of cycles that starts empty. */
  function Run(scans: seq<Scan>): seq<DriftEvent> {
    if scans == [] then []
    else
      var last := scans[|scans| - 1];
      Cycle(Run(scans[..|scans| - 1]), last.findings, last.at)
  }

  predicate Shown(scans: seq<Scan>, k: Key) {
    scans != [] && InScan(scans[|scans| - 1].findings, k)
  }

  /** How often the key appears in a scan but not in the one before. */
  function RisingEdges(scans: seq<Scan>, k: Key): nat {
    if scans == [] then 0
    else
      var before := scans[..|scans| - 1];
      RisingEdges(before, k) + if Shown(scans, k) && !Shown(before, k) then 1 else 0
  }

  function FallingEdges(scans: seq<Scan>, k: Key): nat {
    if scans == [] then 0
    else
      var before := scans[..|scans| - 1];
      FallingEdges(before, k) + if Shown(before, k) && !Shown(scans, k) then 1 else 0
  }

  /** No key is ever open twice, whatever is scanned. */
  lemma {:induction false} AtMostOneOpen(scans: seq<Scan>, k: Key)
    ensures StillOpen(Run(scans), k) <= 1
  {
    if scans != [] {
      var last := scans[|scans| - 1];
      AtMostOneOpen(scans[..|scans| - 1], k);
      CycleCounts(Run(scans[..|scans| - 1]), last.findings, last.at, k);
    }
  }

  ghost predicate ScannedKey(scans: seq<Scan>, k: Key) {
    exists i | 0 <= i < |scans| :: InScan(scans[i].findings, k)
  }

  /** The joined strings tell the keys of these scans apart. */
  ghost predicate Faithful(scans: seq<Scan>) {
    forall a, b | ScannedKey(scans, a) && ScannedKey(scans, b) && Joined(a) == Joined(b) :: a == b
  }

  lemma FaithfulLastScan(scans: seq<Scan>, k: Key)
    requires Faithful(scans) && scans != [] && ScannedKey(scans, k)
    ensures Joined(k) in JoinedKeys(scans[|scans| - 1].findings) ==> Shown(scans, k)
  {
    var last := scans[|scans| - 1].findings;
    if Joined(k) in JoinedKeys(last) {
      var f :| f in last && Joined(KeyOf(f)) == Joined(k);
      assert InScan(last, KeyOf(f));
      assert ScannedKey(scans, KeyOf(f));
    }
  }

  lemma FaithfulPrefix(scans: seq<Scan>)
    requires Faithful(scans) && scans != []
    ensures Faithful(scans[..|scans| - 1])
  {
    var before := scans[..|scans| - 1];
    forall k | ScannedKey(before, k)
      ensures ScannedKey(scans, k)
    {
      var i :| 0 <= i < |before| && InScan(before[i].findings, k);
      assert InScan(scans[i].findings, k);
    }
  }

  /** Over any run, a key's events are its rising edges, its resolved events its falling edges. */
  lemma {:induction false} EventsAreEdges(scans: seq<Scan>, k: Key)
    requires Faithful(scans)
    ensures Created(Run(scans), k) == RisingEdges(scans, k)
    ensures Resolved(Run(scans), k) == FallingEdges(scans, k)
    ensures StillOpen(Run(scans), k) == if Shown(scans, k) then 1 else 0
  {
    if scans != [] {
      var before, last := scans[..|scans| - 1], scans[|scans| - 1];
      FaithfulPrefix(scans);
      EventsAreEdges(before, k);
      CycleCounts(Run(before), last.findings, last.at, k);
      EveryEventOpenOrResolved(Run(before), k);
      EveryEventOpenOrResolved(Run(scans), k);
      assert Shown(scans, k) ==> Joined(k) in JoinedKeys(last.findings);
      if Shown(before, k) {
        assert InScan(scans[|scans| - 2].findings, k);
        FaithfulLastScan(scans, k);
      }
    }
  }

  /** The later table keeps every event: resolved ones untouched, open ones at most resolved. */
  ghost predicate Continues(before: seq<DriftEvent>, after: seq<DriftEvent>) {
    && |before| <= |after|
    && forall i | 0 <= i < |before| ::
         || after[i] == before[i]
         || (!before[i].isResolved && after[i].isResolved && after[i].resolvedAt.Some?
             && after[i] == before[i].(isResolved := true, resolvedAt := after[i].resolvedAt))
  }

  /** A cycle resolves, now, the open events whose joined key it does not show, and leaves every other event as it is. */
  lemma CycleRows(events: seq<DriftEvent>, scan: seq<Finding>, now: nat, i: nat)
    requires i < |events|
    ensures i < |Cycle(events, scan, now)|
    ensures Cycle(events, scan, now)[i]
         == if !events[i].isResolved && forall f | f in scan :: Joined(KeyOf(f)) != Joined(KeyOf(events[i].finding)) then
              DriftEvent(events[i].id, events[i].finding, true, Some(now), events[i].detectedAt)
            else events[i]
  {
    OpenNewAppends(ResolveMissing(events, JoinedKeys(scan), now), scan, now);
  }

  lemma CycleContinues(events: seq<DriftEvent>, scan: seq<Finding>, now: nat)
    ensures Continues(events, Cycle(events, scan, now))
  {
    OpenNewAppends(ResolveMissing(events, JoinedKeys(scan), now), scan, now);
  }

  /** A resolved event never changes again, however the run goes on. */
  lemma {:induction false} HistoryIsKept(scans: seq<Scan>, n: nat)
    requires n <= |scans|
    ensures Continues(Run(scans[..n]), Run(scans))
    decreases |scans|
  {
    if n == |scans| {
      assert scans[..n] == scans;
    } else {
      var before, last := scans[..|scans| - 1], scans[|scans| - 1];
      HistoryIsKept(before, n);
      assert before[..n] == scans[..n];
      CycleContinues(Run(before), last.findings, last.at);
    }
  }
}
