/** Rendering a module tree and parsing it back. */
module ModuleTreeRoundTrip {
  import opened Wrappers
  import opened Text
  import opened ModuleTree

  datatype Entry = Entry(name: string, comment: string)

  /** What `\w[\w-]*` accepts. */
  ghost predicate LegalName(name: string) {
    && name != "" && name[0] != '-'
    && forall c | c in name :: 'a' <= c <= 'z' || 'A' <= c <= 'Z' || '0' <= c <= '9' || c == '_' || c == '-'
  }

  /** A comment stays on its line: only trailing blanks may be line terminators, as in CRLF text. */
  ghost predicate Comment(comment: string) {
    '\n' !in comment && OneLine(TrimEnd(comment))
  }

  ghost predicate Legal(e: Entry) {
    LegalName(e.name) && Comment(e.comment)
  }

  /** The parser skips a tree line whose comment repeats the section heading. */
  predicate Visible(e: Entry) {
    !Contains(e.comment, "### Module Structure")
  }

  function Head(corner: char, name: string): string {
    [corner] + "── " + name + "/"
  }

  function TreeLine(corner: char, e: Entry): string {
    Head(corner, e.name) + e.comment
  }

  function TreeLines(entries: seq<Entry>): seq<string> {
    if entries == [] then []
    else [TreeLine(if |entries| == 1 then '└' else '├', entries[0])] + TreeLines(entries[1..])
  }

  function VisibleNames(entries: seq<Entry>): set<string> {
    set e | e in entries && Visible(e) :: e.name
  }

  predicate AnyVisible(entries: seq<Entry>) {
    exists e | e in entries :: Visible(e)
  }

  function AllNames(entries: seq<Entry>): set<string> {
    set e | e in entries :: e.name
  }

  /** Every name has a line whose comment does not repeat the heading. */
  ghost predicate AllShown(entries: seq<Entry>) {
    forall e | e in entries :: exists v :: v in entries && Visible(v) && v.name == e.name
  }

  /** A line that closes the section: a heading, a rule or a fence. */
  ghost predicate Closes(line: string) {
    var trimmed := Trim(line);
    && '\n' !in line && !Contains(trimmed, "### Module Structure")
    && ("##" <= trimmed || "---" <= trimmed || "```" <= trimmed)
  }

  /** A line before the section: neither the section heading nor the root of a tree. */
  ghost predicate Precedes(line: string) {
    '\n' !in line && Trim(line) != "src/" && !Contains(Trim(line), "### Module Structure")
  }

  /** The document: any text before the section, the fenced tree, the line that closes it, any text after it. */
  function Document(before: seq<string>, entries: seq<Entry>, close: string, rest: string): string {
    Unlines(before + ["### Module Structure", "```", "src/"] + TreeLines(entries) + [close]) + rest
  }

  // ----- one tree line -----

  lemma {:induction false} SkipNameStops(s: string, i: nat, k: nat)
    requires i <= k < |s| && (forall j | i <= j < k :: IsNameChar(s[j])) && !IsNameChar(s[k])
    ensures SkipName(s, i) == k
    decreases k - i
  {
    if i < k {
      SkipNameStops(s, i + 1, k);
    }
  }

  lemma HeadMatches(corner: char, name: string, tail: string)
    requires IsCorner(corner) && LegalName(name)
    ensures MatchAt(Head(corner, name) + tail, 0) == Some(Capture(name, |Head(corner, name)|))
  {
    var s := Head(corner, name) + tail;
    assert s[3] == ' ' && s[4] == name[0];
    assert name[0] in name && IsWord(name[0]) && !IsSpace(name[0]);
    assert SkipSpaces(s, 4) == 4;
    assert SkipSpaces(s, 3) == 4;
    assert forall j | 4 <= j < 4 + |name| :: s[j] == name[j - 4] && name[j - 4] in name;
    assert s[4 + |name|] == '/';
    SkipNameStops(s, 4, 4 + |name|);
    assert s[4..4 + |name|] == name;
  }

  lemma HeadIsPlain(corner: char, name: string, c: char)
    requires IsCorner(corner) && LegalName(name) && c in Head(corner, name)
    ensures c != '#' && !IsLineTerminator(c)
  {
    assert Head(corner, name) == [corner, '─', '─', ' '] + name + ['/'];
    assert c in [corner, '─', '─', ' '] || c in name || c == '/';
  }

  lemma TrimTreeLine(corner: char, e: Entry)
    requires IsCorner(corner) && LegalName(e.name)
    ensures Trim(TreeLine(corner, e)) == Head(corner, e.name) + TrimEnd(e.comment)
  {
    var head := Head(corner, e.name);
    assert TreeLine(corner, e)[0] == corner;
    assert head[|head| - 1] == '/';
    TrimEndAfter(head, e.comment);
  }

  lemma {:induction false} TrimEndKeeps(s: string, pat: string, i: nat)
    requires pat != "" && !IsSpace(pat[|pat| - 1])
    ensures TrimEnd(s) <= s
    ensures OccursAt(s, pat, i) <==> OccursAt(TrimEnd(s), pat, i)
  {
    if s != "" && IsSpace(s[|s| - 1]) {
      var t := s[..|s| - 1];
      TrimEndKeeps(t, pat, i);
      assert s == t + [s[|s| - 1]];
      if i + |pat| <= |t| {
        OccursInPrefix(t, [s[|s| - 1]], pat, i);
      }
    }
  }

  /** The heading occurs in the trimmed line exactly when it occurs in the comment. */
  lemma HeadingInComment(corner: char, e: Entry)
    requires IsCorner(corner) && LegalName(e.name)
    ensures Contains(Head(corner, e.name) + TrimEnd(e.comment), HEADING) <==> Contains(e.comment, HEADING)
  {
    var head, tail := Head(corner, e.name), TrimEnd(e.comment);
    if Contains(e.comment, HEADING) {
      var i := Find(e.comment, HEADING).value;
      TrimEndKeeps(e.comment, HEADING, i);
      OccursShifted(head, tail, HEADING, i);
    }
    if Contains(head + tail, HEADING) {
      var i := Find(head + tail, HEADING).value;
      NotInHead(corner, e.name, tail, i);
      OccursShifted(head, tail, HEADING, i - |head|);
      TrimEndKeeps(e.comment, HEADING, i - |head|);
    }
  }

  lemma NotInHead(corner: char, name: string, tail: string, i: nat)
    requires IsCorner(corner) && LegalName(name) && OccursAt(Head(corner, name) + tail, HEADING, i)
    ensures |Head(corner, name)| <= i
  {
    var head := Head(corner, name);
    assert (head + tail)[i] == HEADING[0] == '#';
    if i < |head| {
      HeadIsPlain(corner, name, head[i]);
    }
  }

  /** A tree line yields its name, or is taken for a section start when its comment repeats the heading. */
  lemma TreeLineParses(corner: char, e: Entry)
    requires IsCorner(corner) && Legal(e)
    ensures var trimmed := Trim(TreeLine(corner, e));
            && (StartsSection(trimmed) <==> !Visible(e))
            && !EndsSection(trimmed)
            && Names(trimmed) == {e.name}
  {
    var head, tail := Head(corner, e.name), TrimEnd(e.comment);
    var trimmed := head + tail;
    TrimTreeLine(corner, e);
    HeadingInComment(corner, e);
    assert trimmed[0] == corner;
    HeadMatches(corner, e.name, tail);
    assert FirstMatch(trimmed, 0, false) == Some(e.name);
    forall c | c in trimmed
      ensures !IsLineTerminator(c)
    {
      if c in head {
        HeadIsPlain(corner, e.name, c);
      }
    }
    ActiveAddsNothing(trimmed, 0);
  }

  // ----- the document -----

  lemma {:induction false} SkipBefore(before: seq<string>, lines: seq<string>)
    requires forall line | line in before :: !StartsSection(Trim(line))
    ensures ParseLines(before + lines, false, {}) == ParseLines(lines, false, {})
  {
    if before == [] {
      assert before + lines == lines;
    } else {
      SkipBefore(before[1..], lines);
      assert (before + lines)[1..] == before[1..] + lines;
      assert before[0] in before;
    }
  }

  lemma TreeLineStep(corner: char, e: Entry, rest: seq<string>, modules: set<string>)
    requires IsCorner(corner) && Legal(e)
    ensures ParseLines([TreeLine(corner, e)] + rest, true, modules)
         == ParseLines(rest, true, if Visible(e) then modules + {e.name} else modules)
  {
    TreeLineParses(corner, e);
    assert ([TreeLine(corner, e)] + rest)[1..] == rest;
  }

  lemma OneThen(line: string, a: seq<string>, b: seq<string>)
    ensures [line] + a + b == [line] + (a + b)
  {
  }

  lemma {:induction false} TreeParses(entries: seq<Entry>, lines: seq<string>, modules: set<string>)
    requires forall e | e in entries :: Legal(e)
    ensures ParseLines(TreeLines(entries) + lines, true, modules)
         == ParseLines(lines, true, modules + VisibleNames(entries))
    decreases entries
  {
    if entries == [] {
      assert TreeLines(entries) + lines == lines;
      assert modules + VisibleNames(entries) == modules;
    } else {
      var corner, e := if |entries| == 1 then '└' else '├', entries[0];
      var next := if Visible(e) then modules + {e.name} else modules;
      assert e in entries;
      TreeLineStep(corner, e, TreeLines(entries[1..]) + lines, modules);
      TreeParses(entries[1..], lines, next);
      OneThen(TreeLine(corner, e), TreeLines(entries[1..]), lines);
      VisibleCons(entries, modules);
    }
  }

  lemma VisibleCons(entries: seq<Entry>, modules: set<string>)
    requires entries != []
    ensures modules + VisibleNames(entries)
         == (if Visible(entries[0]) then modules + {entries[0].name} else modules) + VisibleNames(entries[1..])
  {
    assert entries == [entries[0]] + entries[1..];
  }

  lemma StartStep(line: string, rest: seq<string>, inSection: bool, modules: set<string>)
    requires StartsSection(Trim(line))
    ensures ParseLines([line] + rest, inSection, modules) == ParseLines(rest, true, modules)
  {
    assert ([line] + rest)[1..] == rest;
  }

  lemma CloseStep(close: string, rest: seq<string>, modules: set<string>)
    requires Closes(close)
    ensures ParseLines([close] + rest, true, modules) == if modules != {} then modules else ParseLines(rest, true, modules)
  {
    assert "src/"[0] != "##"[0] && "src/"[0] != "---"[0] && "src/"[0] != "```"[0];
    assert ([close] + rest)[1..] == rest;
  }

  lemma FixedLines()
    ensures Trim(HEADING) == HEADING && StartsSection(HEADING)
    ensures Closes("```")
    ensures Trim("src/") == "src/" && StartsSection("src/")
  {
    assert OccursAt(HEADING, HEADING, 0);
    assert Trim("```") == "```" && !Contains("```", HEADING);
  }

  lemma ThreeThen(a: string, b: string, c: string, tail: seq<string>)
    ensures [a, b, c] + tail == [a] + ([b] + ([c] + tail))
  {
  }

  lemma SectionParses(entries: seq<Entry>, close: string, after: seq<string>)
    requires (forall e | e in entries :: Legal(e)) && Closes(close)
    ensures ParseLines([HEADING, "```", "src/"] + (TreeLines(entries) + ([close] + after)), false, {})
         == if VisibleNames(entries) != {} then VisibleNames(entries) else ParseLines(after, true, {})
  {
    FixedLines();
    var tail := TreeLines(entries) + ([close] + after);
    ThreeThen(HEADING, "```", "src/", tail);
    StartStep(HEADING, ["```"] + (["src/"] + tail), false, {});
    CloseStep("```", ["src/"] + tail, {});
    StartStep("src/", tail, true, {});
    TreeParses(entries, [close] + after, {});
    assert {} + VisibleNames(entries) == VisibleNames(entries);
    CloseStep(close, after, VisibleNames(entries));
  }

  lemma {:induction false} TreeLinesUnbroken(entries: seq<Entry>)
    requires forall e | e in entries :: Legal(e)
    ensures forall line | line in TreeLines(entries) :: '\n' !in line
  {
    if entries != [] {
      TreeLinesUnbroken(entries[1..]);
      var corner, e := if |entries| == 1 then '└' else '├', entries[0];
      assert e in entries;
      if '\n' in TreeLine(corner, e) {
        HeadIsPlain(corner, e.name, '\n');
      }
    }
  }

  /**
   * Parsing a rendered tree gives the visible names, whatever stands before and after it. When no entry is visible the
   * parser reads on past the closing line, still inside the section.
   */
  lemma ParseRendered(before: seq<string>, entries: seq<Entry>, close: string, rest: string)
    requires (forall line | line in before :: Precedes(line)) && Closes(close)
    requires forall e | e in entries :: Legal(e)
    ensures ParseLines(Lines(Document(before, entries, close, rest)), false, {})
         == if AnyVisible(entries) then VisibleNames(entries) else ParseLines(Lines(rest), true, {})
  {
    var all := before + [HEADING, "```", "src/"] + TreeLines(entries) + [close];
    TreeLinesUnbroken(entries);
    LinesUnlines(all, rest);
    var section := [HEADING, "```", "src/"] + (TreeLines(entries) + ([close] + Lines(rest)));
    assert all + Lines(rest) == before + section;
    SkipBefore(before, section);
    SectionParses(entries, close, Lines(rest));
    SomeVisible(entries);
  }

  lemma SomeVisible(entries: seq<Entry>)
    ensures VisibleNames(entries) != {} <==> AnyVisible(entries)
  {
    if e :| e in entries && Visible(e) {
      assert e.name in VisibleNames(entries);
    }
  }

  /**
   * Every rendered name comes back exactly when each has a line whose comment does not repeat the heading, or no line
   * is visible and the text after the tree happens to list the names.
   */
  lemma RoundTripIff(before: seq<string>, entries: seq<Entry>, close: string, rest: string)
    requires (forall line | line in before :: Precedes(line)) && Closes(close)
    requires forall e | e in entries :: Legal(e)
    ensures ParseLines(Lines(Document(before, entries, close, rest)), false, {}) == AllNames(entries)
       <==> if AnyVisible(entries) then AllShown(entries) else ParseLines(Lines(rest), true, {}) == AllNames(entries)
  {
    ParseRendered(before, entries, close, rest);
    AllNamesVisible(entries);
  }

  lemma AllNamesVisible(entries: seq<Entry>)
    ensures VisibleNames(entries) == AllNames(entries) <==> AllShown(entries)
  {
    var all := AllNames(entries);
    assert VisibleNames(entries) <= all;
    if VisibleNames(entries) == all {
      forall e | e in entries
        ensures exists v :: v in entries && Visible(v) && v.name == e.name
      {
        assert e.name in all;
      }
    }
  }

  lemma MatchAtSeven(s: string)
    requires |s| == 22 && s[7..] == "├── b/ ✅ active"
    ensures MatchAt(s, 7) == Some(Capture("b", 13)) && ActiveFrom(s, 13)
  {
    var t := "├── b/ ✅ active";
    assert forall i | 7 <= i < 22 :: s[i] == t[i - 7];
    assert SkipSpaces(s, 11) == 11 && SkipSpaces(s, 10) == 11;
    SkipNameStops(s, 11, 12);
    assert s[11..12] == "b";
    assert SkipSpaces(s, 16) == 16 && SkipSpaces(s, 15) == 16;
    assert s[16..] == s[7..][9..] == "active";
    assert ActiveFrom(s, 14);
  }

  lemma {:induction false} LaterActive(s: string, i: nat)
    requires 1 <= i <= 7 < |s| && forall k | i <= k < 7 :: !IsCorner(s[k])
    ensures ActiveMatch(s, i) == ActiveMatch(s, 7)
    decreases 7 - i
  {
    if i < 7 {
      LaterActive(s, i + 1);
    }
  }

  lemma TwoTreeLines(c: char, t: string)
    requires IsLineTerminator(c) && t == [c] + "├── b/ ✅ active"
    ensures var s := "├── a/" + t; FirstMatch(s, 0, false) == Some("a") && ActiveMatch(s, 0) == Some("b")
  {
    var h := "├── a/";
    var s := h + t;
    HeadMatches('├', "a", t);
    assert Head('├', "a") == h;
    SixThen(h, c, "├── b/ ✅ active");
    assert !ActiveFrom(s, 6);
    MatchAtSeven(s);
    assert forall k | 1 <= k < 6 :: !IsCorner(h[k]);
    LaterActive(s, 1);
  }

  lemma SixThen(h: string, c: char, b: string)
    requires |h| == 6
    ensures var s := h + ([c] + b);
            |s| == 7 + |b| && s[6] == c && s[7..] == b && forall k | 0 <= k < 6 :: s[k] == h[k]
  {
  }

  /** A carriage return, line separator or paragraph separator inside a line lets the second pattern add a name. */
  lemma TerminatorBreaksAgreement(c: char)
    requires IsLineTerminator(c)
    ensures var s := "├── a/" + [c] + "├── b/ ✅ active";
            FirstMatch(s, 0, false) == Some("a") && ActiveMatch(s, 0) == Some("b")
  {
    var t := [c] + "├── b/ ✅ active";
    assert "├── a/" + [c] + "├── b/ ✅ active" == "├── a/" + t;
    TwoTreeLines(c, t);
  }

  ghost predicate Over(s: string, chars: set<char>) {
    forall c | c in s :: c in chars
  }

  lemma OverThree(a: string, c: char, b: string, chars: set<char>)
    requires Over(a, chars) && c in chars && Over(b, chars)
    ensures Over(a + [c] + b, chars)
  {
  }

  /** The second pattern finds nothing on `s`, or what the first pattern found. */
  predicate PatternsAgree(s: string) {
    ActiveMatch(s, 0).Some? ==> FirstMatch(s, 0, false) == ActiveMatch(s, 0)
  }

  lemma Disagreement(c: char) returns (s: string)
    requires IsLineTerminator(c)
    ensures s == "├── a/" + [c] + "├── b/ ✅ active" && !PatternsAgree(s)
  {
    s := "├── a/" + [c] + "├── b/ ✅ active";
    TerminatorBreaksAgreement(c);
    assert "a"[0] != "b"[0];
  }

  /**
   * Over an alphabet that can write two tree lines and the marker, the two patterns agree on every text exactly when
   * the alphabet has no line terminator.
   */
  lemma AgreementIff(chars: set<char>)
    requires Over("├── a/", chars) && Over("├── b/ ✅ active", chars)
    ensures (forall s | Over(s, chars) :: PatternsAgree(s))
       <==> '\n' !in chars && '\r' !in chars && '\U{2028}' !in chars && '\U{2029}' !in chars
  {
    if c :| c in chars && IsLineTerminator(c) {
      OverThree("├── a/", c, "├── b/ ✅ active", chars);
      var s := Disagreement(c);
      assert Over(s, chars);
    } else {
      forall s | Over(s, chars)
        ensures PatternsAgree(s)
      {
        ActiveAddsNothing(s, 0);
      }
    }
  }
}
