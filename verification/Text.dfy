/** The JavaScript string operations the two text parsers are written with. */
module Text {
  import opened Wrappers

  /** ECMAScript LineTerminator: what `.` in a regular expression does not match. */
  predicate IsLineTerminator(c: char) {
    c == '\n' || c == '\r' || c == '\U{2028}' || c == '\U{2029}'
  }

  /** ECMAScript white space and line terminators: what trim() strips and `\s` matches. */
  predicate IsSpace(c: char) {
    || '\t' <= c <= '\r' || c == ' ' || c == '\U{00A0}' || c == '\U{1680}'
    || '\U{2000}' <= c <= '\U{200A}' || c == '\U{2028}' || c == '\U{2029}'
    || c == '\U{202F}' || c == '\U{205F}' || c == '\U{3000}' || c == '\U{FEFF}'
  }

  function TrimStart(s: string): string {
    if s != "" && IsSpace(s[0]) then TrimStart(s[1..]) else s
  }

  function TrimEnd(s: string): string {
    if s != "" && IsSpace(s[|s| - 1]) then TrimEnd(s[..|s| - 1]) else s
  }

  function Trim(s: string): string {
    TrimEnd(TrimStart(s))
  }

  predicate StartsWith(s: string, prefix: string) {
    prefix <= s
  }

  predicate EndsWith(s: string, suffix: string) {
    |suffix| <= |s| && s[|s| - |suffix|..] == suffix
  }

  predicate OccursAt(s: string, pat: string, i: nat) {
    i + |pat| <= |s| && s[i..i + |pat|] == pat
  }

  predicate FirstAt(s: string, pat: string, from: nat, i: nat) {
    from <= i && OccursAt(s, pat, i) && forall j | from <= j < i :: !OccursAt(s, pat, j)
  }

  lemma FirstExists(s: string, pat: string, from: nat, i: nat)
    requires from <= i && OccursAt(s, pat, i)
    ensures exists k: nat | k <= |s| :: FirstAt(s, pat, from, k)
  {
    var k := from;
    while !OccursAt(s, pat, k)
      invariant from <= k <= i && forall j | from <= j < k :: !OccursAt(s, pat, j)
      decreases i - k
    {
      k := k + 1;
    }
    assert FirstAt(s, pat, from, k);
  }

  /** indexOf: the first position at or after `from` where `pat` occurs. */
  function FindFrom(s: string, pat: string, from: nat): Option<nat> {
    if exists i: nat | i <= |s| :: from <= i && OccursAt(s, pat, i) then
      assert exists k: nat | k <= |s| :: FirstAt(s, pat, from, k) by {
        var i: nat :| i <= |s| && from <= i && OccursAt(s, pat, i);
        FirstExists(s, pat, from, i);
      }
      var k: nat :| k <= |s| && FirstAt(s, pat, from, k);
      Some(k)
    else None
  }

  function Find(s: string, pat: string): Option<nat> {
    FindFrom(s, pat, 0)
  }

  predicate Contains(s: string, pat: string) {
    Find(s, pat).Some?
  }

  /** split('\n') */
  function Lines(s: string): (lines: seq<string>)
    ensures |lines| >= 1
    ensures forall line | line in lines :: '\n' !in line
  {
    if s == "" then [""]
    else
      var rest := Lines(s[1..]);
      if s[0] == '\n' then [""] + rest else [[s[0]] + rest[0]] + rest[1..]
  }

  /** Lines, each with its newline. */
  function Unlines(lines: seq<string>): string {
    if lines == [] then "" else lines[0] + "\n" + Unlines(lines[1..])
  }

  lemma {:induction false} LinesCons(line: string, rest: string)
    requires '\n' !in line
    ensures Lines(line + "\n" + rest) == [line] + Lines(rest)
  {
    var s := line + "\n" + rest;
    if line == "" {
      assert s[1..] == rest;
    } else {
      LinesCons(line[1..], rest);
      assert s[1..] == line[1..] + "\n" + rest;
      assert [line[0]] + line[1..] == line;
    }
  }

  /** Splitting text that begins with whole lines gives those lines back, then the lines of the remainder. */
  lemma {:induction false} LinesUnlines(lines: seq<string>, rest: string)
    requires forall line | line in lines :: '\n' !in line
    ensures Lines(Unlines(lines) + rest) == lines + Lines(rest)
  {
    if lines == [] {
      assert Unlines(lines) + rest == rest;
    } else {
      LinesUnlines(lines[1..], rest);
      LinesCons(lines[0], Unlines(lines[1..]) + rest);
      assert Unlines(lines) + rest == lines[0] + "\n" + (Unlines(lines[1..]) + rest);
      assert lines + Lines(rest) == [lines[0]] + (lines[1..] + Lines(rest));
    }
  }

  lemma TrimIdentity(s: string)
    requires s != "" ==> !IsSpace(s[0]) && !IsSpace(s[|s| - 1])
    ensures Trim(s) == s
  {
  }

  /** Trimming keeps a prefix that neither starts nor ends with space, and trims what follows it. */
  lemma {:induction false} TrimEndAfter(head: string, tail: string)
    requires head != "" && !IsSpace(head[|head| - 1])
    ensures TrimEnd(head + tail) == head + TrimEnd(tail)
  {
    if tail == "" {
      assert head + tail == head;
    } else if IsSpace(tail[|tail| - 1]) {
      TrimEndAfter(head, tail[..|tail| - 1]);
      assert (head + tail)[..|head + tail| - 1] == head + tail[..|tail| - 1];
    }
  }

  /** A pattern without the character `c` cannot straddle a `c`. */
  lemma NoStraddle(s: string, pat: string, i: nat, cut: nat)
    requires OccursAt(s, pat, i) && cut < |s| && s[cut] !in pat
    ensures i + |pat| <= cut || cut < i
  {
    assert forall k | 0 <= k < |pat| :: s[i + k] == pat[k];
  }

  lemma OccursAtEnd(s: string, pat: string, i: nat)
    requires pat != ""
    ensures OccursAt(s, pat, i) ==> s[i + |pat| - 1] == pat[|pat| - 1]
  {
    if OccursAt(s, pat, i) {
      assert s[i..i + |pat|][|pat| - 1] == s[i + |pat| - 1];
    }
  }

  /** Occurrences before the end of a prefix are occurrences in that prefix. */
  lemma OccursInPrefix(s: string, t: string, pat: string, i: nat)
    requires i + |pat| <= |s|
    ensures OccursAt(s + t, pat, i) <==> OccursAt(s, pat, i)
  {
    assert (s + t)[i..i + |pat|] == s[i..i + |pat|];
  }

  lemma OccursShifted(s: string, t: string, pat: string, i: nat)
    ensures OccursAt(s + t, pat, |s| + i) <==> OccursAt(t, pat, i)
  {
    if i + |pat| <= |t| {
      assert (s + t)[|s| + i..|s| + i + |pat|] == t[i..i + |pat|];
    }
  }
}
