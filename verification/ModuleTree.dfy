/** The module inventory parser of the drift detector. */
module ModuleTree {
  import opened Wrappers
  import opened Text

  const HEADING := "### Module Structure"

  predicate IsWord(c: char) {
    'a' <= c <= 'z' || 'A' <= c <= 'Z' || '0' <= c <= '9' || c == '_'
  }

  predicate IsNameChar(c: char) {
    IsWord(c) || c == '-'
  }

  predicate IsCorner(c: char) {
    c == '├' || c == '└'
  }

  function SkipSpaces(s: string, i: nat): (j: nat)
    requires i <= |s|
    ensures i <= j <= |s|
    ensures forall k | i <= k < j :: IsSpace(s[k])
    ensures j < |s| ==> !IsSpace(s[j])
    decreases |s| - i
  {
    if i < |s| && IsSpace(s[i]) then SkipSpaces(s, i + 1) else i
  }

  function SkipName(s: string, i: nat): (j: nat)
    requires i <= |s|
    ensures i <= j <= |s|
    ensures forall k | i <= k < j :: IsNameChar(s[k])
    ensures j < |s| ==> !IsNameChar(s[j])
    decreases |s| - i
  {
    if i < |s| && IsNameChar(s[i]) then SkipName(s, i + 1) else i
  }

  /** A match of `[├└]──\s+(\w[\w-]*)\/`: the captured name and the position after the slash. */
  datatype Capture = Capture(name: string, end: nat)

  function MatchAt(s: string, i: nat): (r: Option<Capture>)
    ensures r.Some? ==> i < r.value.end <= |s| && IsCorner(s[i])
    ensures r.Some? ==> forall k | i < k < r.value.end :: !IsCorner(s[k])
  {
    if i + 3 > |s| || !IsCorner(s[i]) || s[i + 1] != '─' || s[i + 2] != '─' then None
    else
      var j := SkipSpaces(s, i + 3);
      if j == i + 3 || j == |s| || !IsWord(s[j]) then None
      else
        var k := SkipName(s, j);
        if k == |s| || s[k] != '/' then None else Some(Capture(s[j..k], k + 1))
  }

  /** The leftmost match at or after `i`; `tee` restricts the corner to '├'. */
  function FirstMatch(s: string, i: nat, tee: bool): Option<string>
    decreases |s| - i
  {
    if i >= |s| then None
    else
      var m := MatchAt(s, i);
      if m.Some? && (tee ==> s[i] == '├') then Some(m.value.name) else FirstMatch(s, i + 1, tee)
  }

  /** `.*✅\s+active` from position `i`. */
  predicate ActiveFrom(s: string, i: nat)
    decreases |s| - i
  {
    i < |s| &&
    (|| (s[i] == '✅' && SkipSpaces(s, i + 1) > i + 1 && StartsWith(s[SkipSpaces(s, i + 1)..], "active"))
     || (!IsLineTerminator(s[i]) && ActiveFrom(s, i + 1)))
  }

  function ActiveMatch(s: string, i: nat): Option<string>
    decreases |s| - i
  {
    if i >= |s| then None
    else
      var m := MatchAt(s, i);
      if m.Some? && ActiveFrom(s, m.value.end) then Some(m.value.name) else ActiveMatch(s, i + 1)
  }

  function ToSet(name: Option<string>): set<string> {
    if name.Some? then {name.value} else {}
  }

  function MatchedName(s: string): Option<string> {
    var m := FirstMatch(s, 0, false);
    if m.Some? then m else FirstMatch(s, 0, true)
  }

  /** The names one line of the section contributes. */
  function Names(trimmed: string): set<string> {
    ToSet(MatchedName(trimmed)) + ToSet(ActiveMatch(trimmed, 0))
  }

  predicate StartsSection(trimmed: string) {
    Contains(trimmed, HEADING) || trimmed == "src/"
  }

  predicate EndsSection(trimmed: string) {
    StartsWith(trimmed, "##") || StartsWith(trimmed, "---") || StartsWith(trimmed, "```")
  }

  function ParseLines(lines: seq<string>, inSection: bool, modules: set<string>): set<string>
    decreases lines
  {
    if lines == [] then modules
    else
      var trimmed, rest := Trim(lines[0]), lines[1..];
      if StartsSection(trimmed) then ParseLines(rest, true, modules)
      else if !inSection then ParseLines(rest, false, modules)
      else if EndsSection(trimmed) then
        if modules != {} then modules else ParseLines(rest, true, modules)
      else ParseLines(rest, true, modules + Names(trimmed))
  }

  method ParseDocumentedModules(content: string) returns (modules: set<string>)
    ensures modules == ParseLines(Lines(content), false, {})
  {
    modules := {};
    var lines := Lines(content);
    var inModuleSection := false;
    for n := 0 to |lines|
      invariant ParseLines(lines[n..], inModuleSection, modules) == ParseLines(lines, false, {})
    {
      var trimmed := Trim(lines[n]);
      ghost var before := modules;
      assert lines[n..][0] == lines[n] && lines[n..][1..] == lines[n + 1..];
      if StartsSection(trimmed) {
        inModuleSection := true;
        continue;
      }
      if inModuleSection {
        if EndsSection(trimmed) {
          if |modules| > 0 {
            return;
          }
          continue;
        }
        var m := MatchedName(trimmed);
        if m.Some? {
          modules := modules + {m.value};
        }
        var active := ActiveMatch(trimmed, 0);
        if active.Some? {
          modules := modules + {active.value};
        }
        assert modules == before + Names(trimmed);
      }
    }
  }

  // ----- the alternative patterns -----

  /** The '├' alternative never matches where the first pattern did not. */
  lemma {:induction false} TeeAlternativeIsDead(s: string, i: nat)
    ensures FirstMatch(s, i, false).None? ==> FirstMatch(s, i, true).None?
    decreases |s| - i
  {
    if i < |s| {
      TeeAlternativeIsDead(s, i + 1);
    }
  }

  ghost predicate OneLine(s: string) {
    forall c | c in s :: !IsLineTerminator(c)
  }

  lemma {:induction false} ActiveEarlier(s: string, i: nat, j: nat)
    requires OneLine(s) && i <= j && ActiveFrom(s, j)
    ensures ActiveFrom(s, i)
    decreases j - i
  {
    if i < j {
      ActiveEarlier(s, i + 1, j);
      assert s[i] in s;
    }
  }

  lemma {:induction false} NoActiveAfter(s: string, start: nat, i: nat)
    requires OneLine(s) && MatchAt(s, start).Some? && !ActiveFrom(s, MatchAt(s, start).value.end) && start < i
    ensures ActiveMatch(s, i).None?
    decreases |s| - i
  {
    if i < |s| {
      NoActiveAfter(s, start, i + 1);
      var m, end := MatchAt(s, i), MatchAt(s, start).value.end;
      if m.Some? && ActiveFrom(s, m.value.end) {
        assert end <= i;
        ActiveEarlier(s, end, m.value.end);
      }
    }
  }

  /** On text without line terminators the "✅ active" pattern only ever finds the name the first pattern found. */
  lemma {:induction false} ActiveAddsNothing(s: string, i: nat)
    requires OneLine(s)
    ensures ActiveMatch(s, i).Some? ==> FirstMatch(s, i, false) == ActiveMatch(s, i)
    decreases |s| - i
  {
    if i < |s| {
      var m := MatchAt(s, i);
      if m.None? {
        ActiveAddsNothing(s, i + 1);
      } else if !ActiveFrom(s, m.value.end) {
        NoActiveAfter(s, i, i + 1);
      }
    }
  }
}
