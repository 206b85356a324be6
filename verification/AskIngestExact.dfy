/** Exactly when a printed record comes back whole. */
module AskIngestExact {
  import opened Wrappers
  import opened Text
  import opened AskIngest
  import opened AskIngestRoundTrip

  ghost predicate DistinctKeys(fields: seq<Field>) {
    forall i, j | 0 <= i < j < |fields| :: fields[i].0 != fields[j].0
  }

  function AsMap(fields: seq<Field>): Fields {
    if fields == [] then map[]
    else AsMap(fields[..|fields| - 1])[fields[|fields| - 1].0 := fields[|fields| - 1].1]
  }

  lemma {:induction false} AsMapAt(fields: seq<Field>, i: nat)
    requires DistinctKeys(fields) && i < |fields|
    ensures fields[i].0 in AsMap(fields) && AsMap(fields)[fields[i].0] == fields[i].1
  {
    if i < |fields| - 1 {
      AsMapAt(fields[..|fields| - 1], i);
    }
  }

  lemma {:induction false} NoProtoKey(fields: seq<Field>)
    requires forall f | f in fields :: f.0 != "__proto__"
    ensures LastWins(fields) == AsMap(fields)
  {
    if fields != [] {
      NoProtoKey(fields[..|fields| - 1]);
      assert fields[|fields| - 1] in fields;
    }
  }

  lemma {:induction false} ProtoNeverParsed(lines: seq<string>, fields: Fields)
    requires "__proto__" !in fields
    ensures "__proto__" !in ParseFields(lines, fields)
  {
    if lines != [] {
      var field := ParseLine(lines[0]);
      ProtoNeverParsed(lines[1..], if field.None? then fields else Assign(fields, field.value.0, field.value.1));
    }
  }

  // ----- a line cut at an end marker -----

  lemma {:induction false} TrimEndChars(s: string)
    ensures |TrimEnd(s)| <= |s| && forall c | c in TrimEnd(s) :: c in s
  {
    if s != "" && IsSpace(s[|s| - 1]) {
      TrimEndChars(s[..|s| - 1]);
    }
  }

  lemma {:induction false} TrimStartChars(s: string)
    ensures |TrimStart(s)| <= |s| && forall c | c in TrimStart(s) :: c in s
  {
    if s != "" && IsSpace(s[0]) {
      TrimStartChars(s[1..]);
    }
  }

  lemma TrimChars(s: string)
    ensures |Trim(s)| <= |s| && forall c | c in Trim(s) :: c in s
  {
    TrimStartChars(s);
    TrimEndChars(TrimStart(s));
  }

  lemma NoColonNoField(line: string)
    requires ':' !in line
    ensures ParseLine(line) == None
  {
    TrimChars(line);
    var trimmed := Trim(line);
    forall i: nat
      ensures !OccursAt(trimmed, ":", i)
    {
      OccursAtEnd(trimmed, ":", i);
    }
  }

  /** Cut inside the value, the line still parses, to a shorter value. */
  lemma CutValue(key: string, value: string)
    requires Trim(key) == key && ':' !in key
    ensures ParseLine(key + ": \"" + value).Some?
    ensures ParseLine(key + ": \"" + value).value.0 == key && |ParseLine(key + ": \"" + value).value.1| <= |value| + 2
  {
    var line, head, w := key + ": \"" + value, key + ": \"", TrimEnd(value);
    if key != "" {
      TrimmedHead(key);
    }
    assert line == head + value && line[0] == head[0];
    assert !IsSpace(line[0]);
    TrimEndAfter(head, value);
    assert Trim(line) == head + w == key + ":" + (" \"" + w);
    SplitAtColon(line, key, " \"" + w);
    TrimEndChars(value);
    TrimChars(" \"" + w);
  }

  /** Where the first end marker of a printed line can be: inside the key or inside the value. */
  lemma MarkerInLine(f: Field, end: string, q: nat)
    requires Printable(f) && IsEndMarker(end) && OccursAt(FieldLine(f), end, q)
    ensures q + |end| <= |f.0| || |f.0| + 3 <= q <= q + |end| <= |f.0| + 3 + |f.1|
  {
    var line := FieldLine(f);
    assert line[|f.0|] == ':' && line[|f.0| + 1] == ' ' && line[|f.0| + 2] == '"' && line[|line| - 1] == '"';
    NoStraddle(line, end, q, |f.0|);
    NoStraddle(line, end, q, |f.0| + 1);
    NoStraddle(line, end, q, |f.0| + 2);
    NoStraddle(line, end, q, |line| - 1);
  }

  ghost predicate Damaged(f: Field, field: Option<Field>) {
    field.Some? ==> field.value.0 == f.0 && |field.value.1| < |f.1|
  }

  lemma CutLine(f: Field, end: string, q: nat)
    requires Printable(f) && IsEndMarker(end) && |end| >= 3 && OccursAt(FieldLine(f), end, q)
    ensures Damaged(f, ParseLine(FieldLine(f)[..q]))
  {
    MarkerInLine(f, end, q);
    if q <= |f.0| {
      assert FieldLine(f)[..q] == f.0[..q];
      NoColonNoField(f.0[..q]);
    } else {
      var u := f.1[..q - |f.0| - 3];
      assert FieldLine(f)[..q] == f.0 + ": \"" + u;
      CutValue(f.0, u);
    }
  }

  // ----- the cut record -----

  lemma MarkedLine(f: Field, end: string)
    requires !Unmarked(f, end)
    ensures Contains(FieldLine(f), end)
  {
    if Contains(f.0, end) {
      OccursInPrefix(f.0, ": \"" + f.1 + "\"", end, Find(f.0, end).value);
      assert FieldLine(f) == f.0 + (": \"" + f.1 + "\"");
    } else {
      var i := Find(f.1, end).value;
      OccursShifted(f.0 + ": \"", f.1, end, i);
      OccursInPrefix(f.0 + ": \"" + f.1, "\"", end, |f.0 + ": \""| + i);
    }
  }

  lemma FindInPrefix(s: string, t: string, pat: string)
    requires Contains(s, pat)
    ensures Find(s + t, pat) == Find(s, pat)
  {
    var p := Find(s, pat).value;
    forall i: nat | i <= p
      ensures OccursAt(s + t, pat, i) <==> OccursAt(s, pat, i)
    {
      OccursInPrefix(s, t, pat, i);
    }
    OnlyFindAt(s + t, pat, 0, p);
  }

  /** The text before the first end marker is some whole lines and a cut one. */
  ghost predicate CutBefore(fields: seq<Field>, end: string, tail: string, i: nat, q: nat) {
    && i < |fields|
    && OccursAt(FieldLine(fields[i]), end, q)
    && var text := Unlines(FieldLines(fields)) + tail;
       var kept := Unlines(FieldLines(fields[..i])) + FieldLine(fields[i])[..q];
       Find(text, end) == Some(|kept|) && kept <= text
  }

  lemma {:induction false} CutAt(fields: seq<Field>, end: string, tail: string) returns (i: nat, q: nat)
    requires IsEndMarker(end) && exists f :: f in fields && !Unmarked(f, end)
    ensures CutBefore(fields, end, tail, i, q)
  {
    var line, rest := FieldLine(fields[0]), Unlines(FieldLines(fields[1..])) + tail;
    var text := Unlines(FieldLines(fields)) + tail;
    BodyCons(fields, tail);
    if Contains(line, end) {
      i, q := 0, Find(line, end).value;
      assert text == line + (['\n'] + rest);
      FindInPrefix(line, ['\n'] + rest, end);
      assert Unlines(FieldLines(fields[..0])) + line[..q] == line[..q];
    } else {
      if !Unmarked(fields[0], end) {
        MarkedLine(fields[0], end);
      }
      assert fields == [fields[0]] + fields[1..];
      var j: nat;
      j, q := CutAt(fields[1..], end, tail);
      i := j + 1;
      CutLater(fields, end, tail, j, q);
    }
  }

  lemma CutLater(fields: seq<Field>, end: string, tail: string, j: nat, q: nat)
    requires IsEndMarker(end) && fields != [] && !Contains(FieldLine(fields[0]), end)
    requires CutBefore(fields[1..], end, tail, j, q)
    ensures CutBefore(fields, end, tail, j + 1, q)
  {
    var line, rest := FieldLine(fields[0]), Unlines(FieldLines(fields[1..])) + tail;
    var cut := FieldLine(fields[j + 1])[..q];
    var kept := Unlines(FieldLines(fields[1..][..j])) + cut;
    assert fields[1..][j] == fields[j + 1];
    FindAcross(end, line, '\n', rest);
    BodyCons(fields, tail);
    var longer := Unlines(FieldLines(fields[..j + 1])) + cut;
    assert longer == line + ['\n'] + kept by {
      assert fields[..j + 1][1..] == fields[1..][..j];
      BodyCons(fields[..j + 1], cut);
    }
    assert Find(rest, end) == Some(|kept|) && kept <= rest;
    SamePrefix(line + ['\n'], kept, rest);
  }

  lemma SamePrefix(head: string, a: string, b: string)
    requires a <= b
    ensures head + a <= head + b
  {
  }

  lemma CutBodyParses(fields: seq<Field>, cut: string)
    requires (forall f | f in fields :: Printable(f)) && '\n' !in cut
    ensures ParseFields(Lines(Unlines(FieldLines(fields)) + cut), map[]) == ParseFields([cut], LastWins(fields))
  {
    FieldLinesUnbroken(fields);
    LinesUnlines(FieldLines(fields), cut);
    OneLineOnly(cut);
    FieldLinesParse(fields);
    ParseFieldsSnoc(FieldLines(fields), cut, map[]);
  }

  lemma {:induction false} OneLineOnly(s: string)
    requires '\n' !in s
    ensures Lines(s) == [s]
  {
    if s != "" {
      OneLineOnly(s[1..]);
      assert [s[0]] + s[1..] == s;
    }
  }

  /** The field whose line is cut does not come back. */
  lemma MarkedFieldIsLost(before: string, fields: seq<Field>, rest: string)
    requires !Contains(before, START) && (forall f | f in fields :: Printable(f)) && DistinctKeys(fields)
    requires exists f :: f in fields && !Unmarked(f, END)
    ensures Record(before + Printed(fields) + rest) != Some(AsMap(fields))
  {
    Markers();
    var i, q := CutAt(fields, END, END + rest);
    var cut := FieldLine(fields[i])[..q];
    var kept := Unlines(FieldLines(fields[..i])) + cut;
    var body := Unlines(FieldLines(fields));
    BetweenIs(START, END, before, body + (END + rest), |kept|);
    Regroup(before, START, body, END, rest);
    assert (body + (END + rest))[..|kept|] == kept;
    assert '\n' !in cut by {
      FieldLinesUnbroken([fields[i]]);
      assert FieldLine(fields[i]) in FieldLines([fields[i]]);
    }
    CutBodyParses(fields[..i], cut);
    CutLine(fields[i], END, q);
    KeyNotBefore(fields, i);
    AsMapAt(fields, i);
    assert ParseFields([cut], LastWins(fields[..i])) != AsMap(fields);
  }

  lemma KeyNotBefore(fields: seq<Field>, i: nat)
    requires DistinctKeys(fields) && i < |fields|
    ensures fields[i].0 !in LastWins(fields[..i])
  {
    if fields[i].0 in LastWins(fields[..i]) {
      LastWinsOnly(fields[..i], fields[i].0);
    }
  }

  /** A printed map comes back whole exactly when no key or value holds the end marker and no key is __proto__. */
  lemma RoundTripIff(before: string, fields: seq<Field>, rest: string)
    requires !Contains(before, START) && fields != []
    requires (forall f | f in fields :: Printable(f)) && DistinctKeys(fields)
    ensures Record(before + Printed(fields) + rest) == Some(AsMap(fields))
       <==> forall f | f in fields :: Unmarked(f, END) && f.0 != "__proto__"
  {
    if exists f :: f in fields && !Unmarked(f, END) {
      MarkedFieldIsLost(before, fields, rest);
    } else if exists f :: f in fields && f.0 == "__proto__" {
      var i :| 0 <= i < |fields| && fields[i].0 == "__proto__";
      AsMapAt(fields, i);
      RoundTrip(before, fields, rest);
      FieldLinesParse(fields);
      ProtoNeverParsed(FieldLines(fields), map[]);
    } else {
      RoundTrip(before, fields, rest);
      NoProtoKey(fields);
      AsMapAt(fields, 0);
    }
  }
}
