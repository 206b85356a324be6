/** One drift detection cycle: resolve what the scan no longer shows, open what is new. */
module DriftDetector {
  import opened Wrappers

  datatype DetectorType = STRUCTURE | POLICY | API_CONTRACT
  datatype Severity = LOW | MEDIUM | HIGH | CRITICAL

  datatype Finding = Finding(detector: DetectorType, severity: Severity, title: string, description: string,
                             sourcePath: Option<string>, expected: Option<string>, actual: Option<string>)

  datatype DriftEvent = DriftEvent(id: nat, finding: Finding, isResolved: bool, resolvedAt: Option<nat>, detectedAt: nat)

  /** The fields findMatchingUnresolved compares. */
  datatype Key = Key(detector: DetectorType, title: string, sourcePath: Option<string>)

  function KeyOf(f: Finding): Key {
    Key(f.detector, f.title, f.sourcePath)
  }

  function DetectorName(d: DetectorType): string {
    match d
    case STRUCTURE => "STRUCTURE"
    case POLICY => "POLICY"
    case API_CONTRACT => "API_CONTRACT"
  }

  /** The string autoResolveDrifts compares. */
  function Joined(k: Key): string {
    DetectorName(k.detector) + "::" + k.title + "::" + k.sourcePath.GetOr("")
  }

  function JoinedKeys(scan: seq<Finding>): set<string> {
    set f | f in scan :: Joined(KeyOf(f))
  }

  predicate IsOpen(e: DriftEvent, k: Key) {
    !e.isResolved && KeyOf(e.finding) == k
  }

  predicate HasOpen(events: seq<DriftEvent>, k: Key) {
    exists e | e in events :: IsOpen(e, k)
  }

  predicate InScan(scan: seq<Finding>, k: Key) {
    exists f | f in scan :: KeyOf(f) == k
  }

  // ----- the cycle as a function of the table -----

  function Settle(e: DriftEvent, joined: set<string>, now: nat): DriftEvent {
    if !e.isResolved && Joined(KeyOf(e.finding)) !in joined then e.(isResolved := true, resolvedAt := Some(now)) else e
  }

  function ResolveMissing(events: seq<DriftEvent>, joined: set<string>, now: nat): (r: seq<DriftEvent>)
    ensures |r| == |events|
    ensures forall i | 0 <= i < |events| :: r[i] == Settle(events[i], joined, now)
  {
    if events == [] then [] else [Settle(events[0], joined, now)] + ResolveMissing(events[1..], joined, now)
  }

  function NewEvent(id: nat, f: Finding, now: nat): DriftEvent {
    DriftEvent(id, f, false, None, now)
  }

  function OpenNew(events: seq<DriftEvent>, scan: seq<Finding>, now: nat): seq<DriftEvent>
    decreases scan
  {
    if scan == [] then events
    else
      var next := if HasOpen(events, KeyOf(scan[0])) then events
                  else events + [NewEvent(|events|, scan[0], now)];
      OpenNew(next, scan[1..], now)
  }

  function Cycle(events: seq<DriftEvent>, scan: seq<Finding>, now: nat): seq<DriftEvent> {
    OpenNew(ResolveMissing(events, JoinedKeys(scan), now), scan, now)
  }

  class DriftDetectorService {
    var events: seq<DriftEvent>

    constructor ()
      ensures events == []
    {
      events := [];
    }

    method AutoResolveDrifts(scan: seq<Finding>, now: nat)
      modifies this
      ensures events == ResolveMissing(old(events), JoinedKeys(scan), now)
    {
      var before := events;
      var currentKeys := JoinedKeys(scan);
      var i := 0;
      while i < |before|
        invariant 0 <= i <= |before| == |events|
        invariant forall j | 0 <= j < i :: events[j] == Settle(before[j], currentKeys, now)
        invariant forall j | i <= j < |before| :: events[j] == before[j]
      {
        var event := before[i];
        if !event.isResolved {
          if Joined(KeyOf(event.finding)) !in currentKeys {
            events := events[i := event.(isResolved := true, resolvedAt := Some(now))];
          }
        }
        i := i + 1;
      }
    }

    method FindMatchingUnresolved(f: Finding) returns (r: Option<DriftEvent>)
      ensures r.Some? <==> HasOpen(events, KeyOf(f))
      ensures r.Some? ==> r.value in events && IsOpen(r.value, KeyOf(f))
    {
      var i := 0;
      while i < |events|
        invariant 0 <= i <= |events|
        invariant forall j | 0 <= j < i :: !IsOpen(events[j], KeyOf(f))
      {
        if IsOpen(events[i], KeyOf(f)) {
          return Some(events[i]);
        }
        i := i + 1;
      }
      r := None;
    }

    method RunFullDetection(scan: seq<Finding>, now: nat) returns (saved: seq<DriftEvent>)
      modifies this
      ensures events == Cycle(old(events), scan, now)
      ensures |old(events)| <= |events| && saved == events[|old(events)|..]
    {
      AutoResolveDrifts(scan, now);
      saved := [];
      ghost var before := events;
      var i := 0;
      while i < |scan|
        invariant 0 <= i <= |scan|
        invariant OpenNew(events, scan[i..], now) == OpenNew(before, scan, now)
        invariant events == before + saved
      {
        var existing := FindMatchingUnresolved(scan[i]);
        if existing.None? {
          var event := NewEvent(|events|, scan[i], now);
          events := events + [event];
          saved := saved + [event];
        }
        i := i + 1;
      }
    }
  }
}
