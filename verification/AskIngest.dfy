/** Parsing the structured record in an Ask agent's output. */
module AskIngest {
  import opened Wrappers
  import opened Text

  const START := "---RECOMMENDATION-RECORD---\n"
  const END := "---END-RECORD---"

  type Fields = map<string, string>

  /** The capture group of `start([\s\S]*?)end`: lazily, up to the first end marker after the first start marker. */
  function Between(text: string, start: string, end: string): Option<string> {
    var at := Find(text, start);
    if at.None? then None
    else
      var from := at.value + |start|;
      var to := FindFrom(text, end, from);
      if to.None? then None else Some(text[from..to.value])
  }

  function Unquote(value: string): string {
    if StartsWith(value, "\"") && EndsWith(value, "\"") then
      if |value| == 1 then "" else value[1..|value| - 1]
    else value
  }

  function ParseLine(line: string): Option<(string, string)> {
    var trimmed := Trim(line);
    var colon := Find(trimmed, ":");
    if trimmed == "" || colon.None? then None
    else Some((Trim(trimmed[..colon.value]), Unquote(Trim(trimmed[colon.value + 1..]))))
  }

  /** fields[key] = value on an object literal: its __proto__ setter ignores strings. */
  function Assign(fields: Fields, key: string, value: string): Fields {
    if key == "__proto__" then fields else fields[key := value]
  }

  function ParseFields(lines: seq<string>, fields: Fields): Fields {
    if lines == [] then fields
    else
      var field := ParseLine(lines[0]);
      ParseFields(lines[1..], if field.None? then fields else Assign(fields, field.value.0, field.value.1))
  }

  function NonEmpty(fields: Fields): Option<Fields> {
    if fields == map[] then None else Some(fields)
  }

  /** The record between two markers, as a function of the text. */
  function RecordBetween(text: string, start: string, end: string): Option<Fields> {
    var body := Between(text, start, end);
    if body.None? then None else NonEmpty(ParseFields(Lines(body.value), map[]))
  }

  function Record(text: string): Option<Fields> {
    RecordBetween(text, START, END)
  }

  method ParseStructuredRecord(text: string) returns (r: Option<Fields>)
    ensures r == Record(text)
  {
    var recordMatch := Between(text, START, END);
    if recordMatch.None? {
      return None;
    }
    var fields := ParseBody(recordMatch.value);
    r := if |fields| > 0 then Some(fields) else None;
  }

  lemma NextLine(lines: seq<string>, n: nat, fields: Fields)
    requires n < |lines|
    ensures ParseFields(lines[n..], fields)
         == ParseFields(lines[n + 1..], match ParseLine(lines[n])
                                        case None => fields
                                        case Some((key, value)) => Assign(fields, key, value))
  {
    assert lines[n..][1..] == lines[n + 1..];
  }

  /** The line loop of parseStructuredRecord. */
  method ParseBody(body: string) returns (fields: Fields)
    ensures fields == ParseFields(Lines(body), map[])
  {
    var lines := Lines(body);
    fields := map[];
    for n := 0 to |lines|
      invariant ParseFields(lines[n..], fields) == ParseFields(lines, map[])
    {
      NextLine(lines, n, fields);
      var trimmed := Trim(lines[n]);
      if trimmed == "" {
        continue;
      }
      var colonIdx := Find(trimmed, ":");
      if colonIdx.None? {
        continue;
      }
      var key := Trim(trimmed[..colonIdx.value]);
      var value := Unquote(Trim(trimmed[colonIdx.value + 1..]));
      fields := Assign(fields, key, value);
    }
  }
}
