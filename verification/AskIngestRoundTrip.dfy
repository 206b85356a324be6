/** Printing a record in the documented format and parsing it back. */
module AskIngestRoundTrip {
  import opened Wrappers
  import opened Text
  import opened AskIngest

  type Field = (string, string)

  function FieldLine(f: Field): string {
    f.0 + ": \"" + f.1 + "\""
  }

  function FieldLines(fields: seq<Field>): seq<string> {
    if fields == [] then [] else [FieldLine(fields[0])] + FieldLines(fields[1..])
  }

  function PrintedBetween(fields: seq<Field>, start: string, end: string): string {
    start + Unlines(FieldLines(fields)) + end
  }

  function Printed(fields: seq<Field>): string {
    PrintedBetween(fields, "---RECOMMENDATION-RECORD---\n", "---END-RECORD---")
  }

  /** Trimmed keys without ':' or newlines, values without newlines. */
  ghost predicate Printable(f: Field) {
    Trim(f.0) == f.0 && ':' !in f.0 && '\n' !in f.0 && '\n' !in f.1
  }

  /** The end marker occurs in neither the key nor the value. */
  ghost predicate Unmarked(f: Field, end: string) {
    !Contains(f.0, end) && !Contains(f.1, end)
  }

  /** Later fields win; a field named __proto__ is lost. */
  function LastWins(fields: seq<Field>): Fields {
    if fields == [] then map[]
    else
      var last := fields[|fields| - 1];
      Assign(LastWins(fields[..|fields| - 1]), last.0, last.1)
  }

  // ----- one line -----

  lemma FindColon(key: string, tail: string)
    requires ':' !in key
    ensures Find(key + ":" + tail, ":") == Some(|key|)
  {
    var s := key + ":" + tail;
    assert OccursAt(s, ":", |key|);
    forall i: nat | i < |key|
      ensures !OccursAt(s, ":", i)
    {
      assert s[i] == key[i];
      assert s[i..i + 1] == [s[i]];
    }
  }

  lemma TrimKey(key: string, tail: string)
    requires Trim(key) == key && tail != "" && !IsSpace(tail[0]) && !IsSpace(tail[|tail| - 1])
    ensures Trim(key + tail) == key + tail
  {
    if key != "" {
      assert !IsSpace(key[0]) by {
        TrimmedHead(key);
      }
    }
    TrimIdentity(key + tail);
  }

  lemma {:induction false} TrimStartSuffix(s: string)
    ensures |TrimStart(s)| <= |s|
    ensures s != "" && IsSpace(s[0]) ==> |TrimStart(s)| < |s|
  {
    if s != "" && IsSpace(s[0]) {
      TrimStartSuffix(s[1..]);
    }
  }

  lemma {:induction false} TrimEndShortens(s: string)
    ensures |TrimEnd(s)| <= |s|
  {
    if s != "" && IsSpace(s[|s| - 1]) {
      TrimEndShortens(s[..|s| - 1]);
    }
  }

  lemma TrimmedHead(key: string)
    requires Trim(key) == key && key != ""
    ensures !IsSpace(key[0])
  {
    TrimStartSuffix(key);
    TrimEndShortens(TrimStart(key));
  }

  lemma SplitAtColon(line: string, key: string, tail: string)
    requires Trim(line) == key + ":" + tail && Trim(key) == key && ':' !in key
    ensures ParseLine(line) == Some((key, Unquote(Trim(tail))))
  {
    var trimmed := key + ":" + tail;
    FindColon(key, tail);
    assert trimmed[..|key|] == key;
    assert trimmed[|key| + 1..] == tail;
  }

  /** A quoted value is read back verbatim. */
  lemma PrintedLineParses(f: Field)
    requires Printable(f)
    ensures ParseLine(FieldLine(f)) == Some(f)
  {
    var quoted := "\"" + f.1 + "\"";
    assert FieldLine(f) == f.0 + (": " + quoted) == f.0 + ":" + (" " + quoted);
    TrimKey(f.0, ": " + quoted);
    TrimQuoted(quoted);
    SplitAtColon(FieldLine(f), f.0, " " + quoted);
    assert Unquote(quoted) == f.1;
  }

  lemma TrimQuoted(quoted: string)
    requires quoted != "" && quoted[0] == '"' && quoted[|quoted| - 1] == '"'
    ensures Trim(" " + quoted) == quoted
  {
    assert (" " + quoted)[1..] == quoted;
    assert TrimStart(" " + quoted) == TrimStart(quoted) == quoted;
  }

  /** A trimmed value is also read back without quotes around it, unless it has quotes of its own. */
  lemma PlainLineParses(f: Field)
    requires Printable(f) && Trim(f.1) == f.1 && !(StartsWith(f.1, "\"") && EndsWith(f.1, "\""))
    ensures ParseLine(f.0 + ": " + f.1) == Some(f)
  {
    var line, head, tail := f.0 + ": " + f.1, f.0 + ":", " " + f.1;
    assert line == head + tail && tail[1..] == f.1;
    if f.0 != "" {
      TrimmedHead(f.0);
    }
    assert !IsSpace(line[0]) && head[|head| - 1] == ':';
    TrimEndAfter(head, tail);
    if f.1 == "" {
      assert TrimEnd(tail) == TrimEnd(tail[..0]) == "";
      assert Trim(line) == f.0 + ":" + "";
      SplitAtColon(line, f.0, "");
    } else {
      TrimmedEnds(f.1);
      assert tail[|tail| - 1] == f.1[|f.1| - 1];
      assert Trim(line) == f.0 + ":" + tail;
      SplitAtColon(line, f.0, tail);
      assert TrimStart(tail) == TrimStart(f.1) == f.1;
    }
  }

  lemma TrimmedEnds(s: string)
    requires Trim(s) == s && s != ""
    ensures !IsSpace(s[0]) && !IsSpace(s[|s| - 1]) && TrimStart(s) == s
  {
    TrimmedHead(s);
    if IsSpace(s[|s| - 1]) {
      TrimEndShortens(s[..|s| - 1]);
    }
  }

  // ----- any line -----

  ghost predicate Blank(s: string) {
    forall c | c in s :: IsSpace(c)
  }

  ghost predicate Trimmed(s: string) {
    s != "" ==> !IsSpace(s[0]) && !IsSpace(s[|s| - 1])
  }

  lemma {:induction false} TrimEndAround(x: string, b: string)
    requires Trimmed(x) && Blank(b)
    ensures TrimEnd(x + b) == x
  {
    if b == "" {
      assert x + b == x;
    } else {
      var rest := b[..|b| - 1];
      assert b[|b| - 1] in b && forall c | c in rest :: c in b;
      assert (x + b)[|x + b| - 1] == b[|b| - 1] && (x + b)[..|x + b| - 1] == x + rest;
      TrimEndAround(x, rest);
    }
  }

  lemma {:induction false} TrimStartAround(a: string, y: string)
    requires Blank(a) && y != "" && !IsSpace(y[0])
    ensures TrimStart(a + y) == y
  {
    if a == "" {
      assert a + y == y;
    } else {
      assert a[0] in a && (a + y)[1..] == a[1..] + y;
      TrimStartAround(a[1..], y);
    }
  }

  lemma {:induction false} TrimBlank(a: string)
    requires Blank(a)
    ensures Trim(a) == ""
  {
    if a != "" {
      assert a[0] in a;
      TrimBlank(a[1..]);
    }
  }

  lemma TrimAround(a: string, x: string, b: string)
    requires Blank(a) && Trimmed(x) && Blank(b)
    ensures Trim(a + x + b) == x
  {
    if x == "" {
      assert a + x + b == a + b && Blank(a + b);
      TrimBlank(a + b);
    } else {
      assert a + x + b == a + (x + b);
      TrimStartAround(a, x + b);
      TrimEndAround(x, b);
    }
  }

  lemma SplitTrimmed(line: string, before: string, after: string)
    requires Trim(line) == before + ":" + after && ':' !in before
    ensures ParseLine(line) == Some((Trim(before), Unquote(Trim(after))))
  {
    var trimmed := before + ":" + after;
    FindColon(before, after);
    assert trimmed[..|before|] == before && trimmed[|before| + 1..] == after;
  }

  /** The value without the quotes around it. */
  function Bare(value: string): string {
    if |value| >= 2 && value[0] == '"' && value[|value| - 1] == '"' then value[1..|value| - 1]
    else if value == "\"" then ""
    else value
  }

  lemma Concat(a: string, k: string, b: string, c: string, v: string, d: string)
    ensures a + k + b + ":" + c + v + d == a + (k + b + ":" + (c + v)) + d
    ensures v == "" ==> a + k + b + ":" + c + v + d == a + (k + b + ":" + "") + (c + d)
    ensures k == "" ==> a + k + b + ":" + c + v + d == (a + b) + ("" + ":" + (c + v)) + d
    ensures k == "" && v == "" ==> a + k + b + ":" + c + v + d == (a + b) + ("" + ":" + "") + (c + d)
  {
  }

  lemma BlankConcat(a: string, b: string)
    requires Blank(a) && Blank(b)
    ensures Blank(a + b) && ':' !in a
  {
  }

  lemma TrimmedParts(key: string, b: string, c: string, value: string)
    requires Trimmed(key) && Trimmed(value)
    ensures var before, after := if key == "" then "" else key + b, if value == "" then "" else c + value;
            Trimmed(before + ":" + after)
  {
  }

  /** In any line the blanks around key and value do not count, and neither does one pair of quotes around the value. */
  lemma LineParses(a: string, key: string, b: string, c: string, value: string, d: string)
    requires Blank(a) && Blank(b) && Blank(c) && Blank(d) && Trimmed(key) && Trimmed(value) && ':' !in key
    ensures ParseLine(a + key + b + ":" + c + value + d) == Some((key, Bare(value)))
  {
    var line := a + key + b + ":" + c + value + d;
    var left, before := if key == "" then a + b else a, if key == "" then "" else key + b;
    var after, right := if value == "" then "" else c + value, if value == "" then c + d else d;
    assert Trim(line) == before + ":" + after by {
      Concat(a, key, b, c, value, d);
      BlankConcat(a, b);
      BlankConcat(c, d);
      TrimmedParts(key, b, c, value);
      TrimAround(left, before + ":" + after, right);
    }
    assert Trim(before) == key by {
      TrimAround("", key, b);
      assert "" + key + b == key + b;
    }
    assert Trim(after) == value by {
      TrimAround(c, value, "");
      assert c + value + "" == c + value;
    }
    BlankConcat(b, b);
    SplitTrimmed(line, before, after);
    UnquoteIsBare(value);
  }

  lemma UnquoteIsBare(value: string)
    ensures Unquote(value) == Bare(value)
  {
    if value != "" {
      assert value[|value| - 1..] == [value[|value| - 1]];
    }
  }

  // ----- all lines -----

  lemma {:induction false} ParseFieldsSnoc(lines: seq<string>, line: string, fields: Fields)
    ensures ParseFields(lines + [line], fields) == ParseFields([line], ParseFields(lines, fields))
  {
    if lines == [] {
      assert lines + [line] == [line];
    } else {
      var field := ParseLine(lines[0]);
      ParseFieldsSnoc(lines[1..], line, if field.None? then fields else Assign(fields, field.value.0, field.value.1));
      assert (lines + [line])[1..] == lines[1..] + [line];
    }
  }

  lemma {:induction false} FieldLinesSnoc(fields: seq<Field>, f: Field)
    ensures FieldLines(fields + [f]) == FieldLines(fields) + [FieldLine(f)]
  {
    if fields == [] {
      assert fields + [f] == [f];
    } else {
      FieldLinesSnoc(fields[1..], f);
      assert (fields + [f])[1..] == fields[1..] + [f];
    }
  }

  lemma {:induction false} FieldLinesParse(fields: seq<Field>)
    requires forall f | f in fields :: Printable(f)
    ensures ParseFields(FieldLines(fields), map[]) == LastWins(fields)
  {
    if fields != [] {
      var before, last := fields[..|fields| - 1], fields[|fields| - 1];
      assert fields == before + [last];
      FieldLinesParse(before);
      FieldLinesSnoc(before, last);
      ParseFieldsSnoc(FieldLines(before), FieldLine(last), map[]);
      PrintedLineParses(last);
    }
  }

  lemma {:induction false} FieldLinesUnbroken(fields: seq<Field>)
    requires forall f | f in fields :: Printable(f)
    ensures |FieldLines(fields)| == |fields|
    ensures forall line | line in FieldLines(fields) :: '\n' !in line
  {
    if fields != [] {
      FieldLinesUnbroken(fields[1..]);
      assert fields[0] in fields;
    }
  }

  // ----- where the markers are found -----

  lemma OnlyFindAt(s: string, pat: string, from: nat, p: nat)
    requires from <= p && OccursAt(s, pat, p) && forall i: nat | from <= i < p :: !OccursAt(s, pat, i)
    ensures FindFrom(s, pat, from) == Some(p)
  {
  }

  /** The two facts about the markers that parsing relies on. */
  ghost predicate IsStartMarker(start: string) {
    start != "" && start[|start| - 1] == '\n' && forall k | 0 <= k < |start| - 1 :: start[k] != '\n'
  }

  ghost predicate IsEndMarker(end: string) {
    end != "" && '\n' !in end && ':' !in end && ' ' !in end && '"' !in end
  }

  lemma Markers()
    ensures IsStartMarker(START) && IsEndMarker(END)
  {
  }

  /** The start marker ends in its only newline, so it cannot overlap an earlier copy of itself. */
  lemma StartFoundAfter(start: string, before: string, rest: string)
    requires IsStartMarker(start) && !Contains(before, start)
    ensures Find(before + start + rest, start) == Some(|before|)
  {
    var s := before + start + rest;
    assert s[|before|..|before| + |start|] == start;
    forall i: nat | i < |before|
      ensures !OccursAt(s, start, i)
    {
      if i + |start| <= |before| {
        assert s == before + (start + rest);
        OccursInPrefix(before, start + rest, start, i);
      } else {
        assert s[i + |start| - 1] == start[i + |start| - 1 - |before|];
        OccursAtEnd(s, start, i);
      }
    }
    OnlyFindAt(s, start, 0, |before|);
  }

  /** Text after the body's offset is searched as if it stood alone. */
  lemma EndFoundIn(end: string, head: string, tail: string, p: nat)
    requires Find(tail, end) == Some(p)
    ensures FindFrom(head + tail, end, |head|) == Some(|head| + p)
  {
    OccursShifted(head, tail, end, p);
    forall i: nat | |head| <= i < |head| + p
      ensures !OccursAt(head + tail, end, i)
    {
      OccursShifted(head, tail, end, i - |head|);
    }
    OnlyFindAt(head + tail, end, |head|, |head| + p);
  }

  lemma BetweenIs(start: string, end: string, before: string, tail: string, p: nat)
    requires IsStartMarker(start) && !Contains(before, start) && Find(tail, end) == Some(p)
    ensures Between(before + start + tail, start, end) == Some(tail[..p])
  {
    StartFoundAfter(start, before, tail);
    EndFoundIn(end, before + start, tail, p);
    assert (before + start + tail)[|before| + |start|..|before| + |start| + p] == tail[..p];
  }

  lemma NothingAcross(pat: string, s: string, c: char, t: string, i: nat)
    requires c !in pat && !Contains(s, pat) && i <= |s|
    ensures pat != "" ==> !OccursAt(s + [c] + t, pat, i)
  {
    var u := s + [c] + t;
    if OccursAt(u, pat, i) && pat != "" {
      assert u[|s|] == c && u == s + ([c] + t);
      NoStraddle(u, pat, i, |s|);
      OccursInPrefix(s, [c] + t, pat, i);
    }
  }

  /** A pattern cannot reach over a character it does not contain. */
  lemma FindAcross(pat: string, s: string, c: char, t: string)
    requires pat != "" && c !in pat && !Contains(s, pat)
    ensures Contains(s + [c] + t, pat) <==> Contains(t, pat)
    ensures Contains(t, pat) ==> Find(s + [c] + t, pat) == Some(|s| + 1 + Find(t, pat).value)
  {
    var u := s + [c] + t;
    forall i: nat
      ensures OccursAt(u, pat, i) ==> i > |s| && OccursAt(t, pat, i - |s| - 1)
    {
      if i <= |s| {
        NothingAcross(pat, s, c, t, i);
      } else {
        OccursShifted(s + [c], t, pat, i - |s| - 1);
      }
    }
    if Contains(t, pat) {
      OccursShifted(s + [c], t, pat, Find(t, pat).value);
      OnlyFindAt(u, pat, 0, |s| + 1 + Find(t, pat).value);
    }
  }

  lemma LineUnmarked(f: Field, end: string)
    requires IsEndMarker(end) && Unmarked(f, end)
    ensures !Contains(FieldLine(f), end)
  {
    var v := f.1 + "\"";
    assert !Contains("", end);
    FindAcross(end, f.1, '"', "");
    assert f.1 + ['"'] + "" == v;
    FindAcross(end, "", '"', v);
    assert "" + ['"'] + v == "\"" + v;
    FindAcross(end, "", ' ', "\"" + v);
    assert "" + [' '] + ("\"" + v) == " \"" + v;
    FindAcross(end, f.0, ':', " \"" + v);
    assert FieldLine(f) == f.0 + [':'] + (" \"" + v);
  }

  lemma BodyCons(fields: seq<Field>, tail: string)
    requires fields != []
    ensures Unlines(FieldLines(fields)) + tail
         == FieldLine(fields[0]) + ['\n'] + (Unlines(FieldLines(fields[1..])) + tail)
    ensures |Unlines(FieldLines(fields))| == |FieldLine(fields[0])| + 1 + |Unlines(FieldLines(fields[1..]))|
  {
    assert FieldLines(fields)[1..] == FieldLines(fields[1..]);
  }

  lemma {:induction false} BodyUnmarked(fields: seq<Field>, end: string, tail: string)
    requires IsEndMarker(end) && (forall f | f in fields :: Unmarked(f, end)) && Find(tail, end) == Some(0)
    ensures Find(Unlines(FieldLines(fields)) + tail, end) == Some(|Unlines(FieldLines(fields))|)
  {
    if fields == [] {
      assert Unlines(FieldLines(fields)) + tail == tail;
    } else {
      assert fields[0] in fields;
      BodyUnmarked(fields[1..], end, tail);
      LineUnmarked(fields[0], end);
      FindAcross(end, FieldLine(fields[0]), '\n', Unlines(FieldLines(fields[1..])) + tail);
      BodyCons(fields, tail);
    }
  }

  lemma BodyParses(fields: seq<Field>)
    requires forall f | f in fields :: Printable(f)
    ensures ParseFields(Lines(Unlines(FieldLines(fields))), map[]) == LastWins(fields)
  {
    var body := Unlines(FieldLines(fields));
    FieldLinesUnbroken(fields);
    LinesUnlines(FieldLines(fields), "");
    assert body + "" == body && Lines("") == [""];
    FieldLinesParse(fields);
    ParseFieldsSnoc(FieldLines(fields), "", map[]);
  }

  // ----- the round trip -----

  lemma FoundAtOnce(end: string, rest: string)
    ensures Find(end + rest, end) == Some(0)
  {
    OnlyFindAt(end + rest, end, 0, 0);
  }

  lemma BodyIsFound(before: string, fields: seq<Field>, rest: string, start: string, end: string)
    requires IsStartMarker(start) && IsEndMarker(end) && !Contains(before, start)
    requires forall f | f in fields :: Unmarked(f, end)
    ensures Between(before + PrintedBetween(fields, start, end) + rest, start, end) == Some(Unlines(FieldLines(fields)))
  {
    var body := Unlines(FieldLines(fields));
    FoundAtOnce(end, rest);
    BodyUnmarked(fields, end, end + rest);
    BetweenIs(start, end, before, body + (end + rest), |body|);
    Regroup(before, start, body, end, rest);
  }

  lemma Regroup(a: string, b: string, c: string, d: string, e: string)
    ensures a + (b + c + d) + e == a + b + (c + (d + e))
    ensures (c + (d + e))[..|c|] == c
  {
  }

  /** Any printed record without an end marker inside parses to its fields, the last of equal keys winning. */
  lemma RoundTrip(before: string, fields: seq<Field>, rest: string)
    requires !Contains(before, START)
    requires forall f | f in fields :: Printable(f) && Unmarked(f, END)
    ensures Record(before + Printed(fields) + rest) == NonEmpty(LastWins(fields))
  {
    Markers();
    BodyIsFound(before, fields, rest, START, END);
    BodyParses(fields);
  }

  ghost predicate LastFor(fields: seq<Field>, k: string, i: int) {
    0 <= i < |fields| && fields[i].0 == k && forall j | i < j < |fields| :: fields[j].0 != k
  }

  /** A key other than __proto__ has the value of its last field. */
  lemma {:induction false} LastWinsAt(fields: seq<Field>, k: string, i: int)
    requires LastFor(fields, k, i) && k != "__proto__"
    ensures k in LastWins(fields) && LastWins(fields)[k] == fields[i].1
  {
    if i < |fields| - 1 {
      LastWinsAt(fields[..|fields| - 1], k, i);
    }
  }

  /** No other key is in the record. */
  lemma {:induction false} LastWinsOnly(fields: seq<Field>, k: string)
    requires k in LastWins(fields)
    ensures k != "__proto__" && exists i :: 0 <= i < |fields| && fields[i].0 == k
  {
    var before, last := fields[..|fields| - 1], fields[|fields| - 1];
    if last.0 != k || k == "__proto__" {
      LastWinsOnly(before, k);
      var i :| 0 <= i < |before| && before[i].0 == k;
      assert fields[i].0 == k;
    }
  }
}
