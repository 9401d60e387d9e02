/**
 The audit log as CSV, and a reader that follows section 2 of RFC 4180 with line feeds for line
 ends. The writer quotes only fields that need it; the reader knows nothing of the writer.
 */
module Csv {
  import opened Options
  import opened Text

  predicate Special(s: string) {
    exists i :: 0 <= i < |s| && (s[i] == ',' || s[i] == '"' || s[i] == '\n')
  }

  /** A rendered point in time: digits, signs and letters. */
  type Timestamp = s: string | !Special(s)

  datatype AuditLog =
    AuditLog(ts: Timestamp, actor: string, action: string, resource: string, ip: string, detail: string)

  const HEADER := "ts,actor,action,resource,ip,detail\n"

  /** Every quote doubled. */
  function Doubled(s: string): string {
    if s == "" then "" else (if s[0] == '"' then "\"\"" else [s[0]]) + Doubled(s[1..])
  }

  function CsvEscape(s: string): string {
    if Special(s) then "\"" + Doubled(s) + "\"" else s
  }

  function Fields(l: AuditLog): seq<string> {
    [l.ts, l.actor, l.action, l.resource, l.ip, l.detail]
  }

  /** Fields separated by commas, closed by a line feed. */
  function RowText(fields: seq<string>): string
    requires fields != []
  {
    if |fields| == 1 then CsvEscape(fields[0]) + "\n"
    else CsvEscape(fields[0]) + "," + RowText(fields[1..])
  }

  function RowsText(logs: seq<AuditLog>): string {
    if logs == [] then "" else RowText(Fields(logs[0])) + RowsText(logs[1..])
  }

  method AuditExport(logs: seq<AuditLog>) returns (b: string)
    ensures b == HEADER + RowsText(logs)
  {
    hide RowText;
    b := HEADER;
    assert logs[0..] == logs;
    for i := 0 to |logs|
      invariant b + RowsText(logs[i..]) == HEADER + RowsText(logs)
    {
      var l := logs[i];
      assert logs[i..][0] == l && logs[i..][1..] == logs[i + 1..];
      RowOfSix(l);
      Assoc(b, RowText(Fields(l)), RowsText(logs[i + 1..]));
      b := b + (l.ts + "," + (CsvEscape(l.actor) + "," + (CsvEscape(l.action) + "," + (CsvEscape(l.resource) + ","
                + (CsvEscape(l.ip) + "," + (CsvEscape(l.detail) + "\n"))))));
    }
    assert logs[|logs|..] == [];
    assert b + "" == b;
  }

  lemma RowOfSix(l: AuditLog)
    ensures RowText(Fields(l)) == l.ts + "," + (CsvEscape(l.actor) + "," + (CsvEscape(l.action) + ","
      + (CsvEscape(l.resource) + "," + (CsvEscape(l.ip) + "," + (CsvEscape(l.detail) + "\n")))))
  {
    assert CsvEscape(l.ts) == l.ts;
    assert RowText([l.detail]) == CsvEscape(l.detail) + "\n";
    hide CsvEscape, RowText;
    RowTail([l.detail], l.ip);
    RowTail([l.ip, l.detail], l.resource);
    RowTail([l.resource, l.ip, l.detail], l.action);
    RowTail([l.action, l.resource, l.ip, l.detail], l.actor);
    RowTail([l.actor, l.action, l.resource, l.ip, l.detail], l.ts);
    assert Fields(l) == [l.ts] + [l.actor, l.action, l.resource, l.ip, l.detail];
    assert [l.actor, l.action, l.resource, l.ip, l.detail] == [l.actor] + [l.action, l.resource, l.ip, l.detail];
    assert [l.action, l.resource, l.ip, l.detail] == [l.action] + [l.resource, l.ip, l.detail];
    assert [l.resource, l.ip, l.detail] == [l.resource] + [l.ip, l.detail];
    assert [l.ip, l.detail] == [l.ip] + [l.detail];
  }

  lemma RowTail(fields: seq<string>, f: string)
    requires fields != []
    ensures RowText([f] + fields) == CsvEscape(f) + "," + RowText(fields)
  {
    assert ([f] + fields)[1..] == fields;
  }

  // ------------------------------------------------------------------ the reader

  /** What was read and the text behind it. */
  datatype Read<T> = Read(value: T, rest: string)

  /** Inside quotes: a doubled quote is a quote, a single one ends the field. */
  function ReadQuoted(s: string): (r: Option<Read<string>>)
    ensures r.Some? ==> |r.value.rest| < |s|
  {
    if s == "" then None
    else if s[0] != '"' then
      match ReadQuoted(s[1..])
      case None => None
      case Some(r) => Some(Read([s[0]] + r.value, r.rest))
    else if |s| > 1 && s[1] == '"' then
      match ReadQuoted(s[2..])
      case None => None
      case Some(r) => Some(Read("\"" + r.value, r.rest))
    else Some(Read("", s[1..]))
  }

  /** Outside quotes: up to a comma, a line feed or the end; a quote is malformed. */
  function ReadPlain(s: string): (r: Option<Read<string>>)
    ensures r.Some? ==> |r.value.rest| <= |s|
  {
    if s == "" || s[0] == ',' || s[0] == '\n' then Some(Read("", s))
    else if s[0] == '"' then None
    else
      match ReadPlain(s[1..])
      case None => None
      case Some(r) => Some(Read([s[0]] + r.value, r.rest))
  }

  function ReadField(s: string): (r: Option<Read<string>>)
    ensures r.Some? ==> |r.value.rest| <= |s|
  {
    if s != "" && s[0] == '"' then ReadQuoted(s[1..]) else ReadPlain(s)
  }

  /** One record; the line feed behind the last one may be missing. */
  function ReadRecord(s: string): (r: Option<Read<seq<string>>>)
    ensures r.Some? ==> |r.value.rest| < |s| || r.value.rest == ""
    decreases |s|
  {
    match ReadField(s)
    case None => None
    case Some(f) =>
      if f.rest == "" then Some(Read([f.value], ""))
      else if f.rest[0] == '\n' then Some(Read([f.value], f.rest[1..]))
      else if f.rest[0] == ',' then
        match ReadRecord(f.rest[1..])
        case None => None
        case Some(r) => Some(Read([f.value] + r.value, r.rest))
      else None
  }

  function ReadFile(s: string): Option<seq<seq<string>>>
    decreases |s|
  {
    if s == "" then Some([])
    else
      match ReadRecord(s)
      case None => None
      case Some(r) =>
        match ReadFile(r.rest)
        case None => None
        case Some(records) => Some([r.value] + records)
  }

  // ------------------------------------------------------------------ the round trip

  predicate Ends(rest: string) {
    rest == "" || rest[0] == ',' || rest[0] == '\n'
  }

  lemma {:induction false} ReadsDoubled(s: string, tail: string)
    requires tail != "" && tail[0] == '"' && (|tail| > 1 ==> tail[1] != '"')
    ensures ReadQuoted(Doubled(s) + tail) == Some(Read(s, tail[1..]))
  {
    if s == "" {
      assert "" + tail == tail;
    } else {
      var front, later := if s[0] == '"' then "\"\"" else [s[0]], Doubled(s[1..]) + tail;
      ReadsDoubled(s[1..], tail);
      Assoc(front, Doubled(s[1..]), tail);
      assert (front + later)[|front|..] == later;
      assert s == [s[0]] + s[1..];
    }
  }

  lemma {:induction false} ReadsPlain(s: string, rest: string)
    requires !Special(s) && Ends(rest)
    ensures ReadPlain(s + rest) == Some(Read(s, rest))
  {
    if s == "" {
      assert s + rest == rest;
    } else {
      assert (s + rest)[1..] == s[1..] + rest;
      ReadsPlain(s[1..], rest);
      assert s == [s[0]] + s[1..];
    }
  }

  lemma ReadsField(s: string, rest: string)
    requires Ends(rest)
    ensures ReadField(CsvEscape(s) + rest) == Some(Read(s, rest))
  {
    hide ReadQuoted, ReadPlain, Doubled;
    if Special(s) {
      var tail := "\"" + rest;
      ReadsDoubled(s, tail);
      assert tail[1..] == rest;
      var d := Doubled(s) + tail;
      assert CsvEscape(s) + rest == "\"" + d;
      assert ("\"" + d)[1..] == d;
    } else {
      ReadsPlain(s, rest);
      assert s + rest != "" ==> (s + rest)[0] != '"';
    }
  }

  lemma {:induction false} ReadsRow(fields: seq<string>, rest: string)
    requires fields != []
    ensures ReadRecord(RowText(fields) + rest) == Some(Read(fields, rest))
  {
    hide CsvEscape, ReadField;
    if |fields| == 1 {
      ReadsField(fields[0], "\n" + rest);
      Assoc(CsvEscape(fields[0]), "\n", rest);
      assert fields == [fields[0]];
    } else {
      var later := RowText(fields[1..]) + rest;
      ReadsField(fields[0], "," + later);
      assert RowText(fields) + rest == CsvEscape(fields[0]) + ("," + later);
      ReadsRow(fields[1..], rest);
      assert ("," + later)[1..] == later;
      assert fields == [fields[0]] + fields[1..];
    }
  }

  function Records(logs: seq<AuditLog>): seq<seq<string>> {
    if logs == [] then [] else [Fields(logs[0])] + Records(logs[1..])
  }

  lemma {:induction false} ReadsRows(logs: seq<AuditLog>)
    ensures ReadFile(RowsText(logs)) == Some(Records(logs))
  {
    hide RowText, ReadRecord;
    if logs != [] {
      ReadsRow(Fields(logs[0]), RowsText(logs[1..]));
      RowTextNonEmpty(Fields(logs[0]));
      ReadsRows(logs[1..]);
    }
  }

  /** Fields that need no quotes are written as they are; the others are enclosed in them. */
  lemma QuotesOnlyWhereNeeded(s: string)
    ensures (forall c :: c in s ==> c !in ",\"\n") ==> CsvEscape(s) == s
    ensures (exists c :: c in s && c in ",\"\n") ==>
      |CsvEscape(s)| >= 2 && CsvEscape(s)[0] == '"' && CsvEscape(s)[|CsvEscape(s)| - 1] == '"'
  {
    SpecialExactly(s);
    hide Special;
  }

  lemma SpecialExactly(s: string)
    ensures Special(s) <==> exists c :: c in s && c in ",\"\n"
  {
    if Special(s) {
      var i :| 0 <= i < |s| && (s[i] == ',' || s[i] == '"' || s[i] == '\n');
      assert s[i] in s && s[i] in ",\"\n";
    }
    if c :| c in s && c in ",\"\n" {
      var i :| 0 <= i < |s| && s[i] == c;
    }
  }

  lemma RowTextNonEmpty(fields: seq<string>)
    requires fields != []
    ensures RowText(fields) != ""
  {
  }

  const COLUMNS: seq<string> := ["ts", "actor", "action", "resource", "ip", "detail"]

  lemma {:induction false} RecordsAre(logs: seq<AuditLog>)
    ensures |Records(logs)| == |logs|
    ensures forall i :: 0 <= i < |logs| ==>
      Records(logs)[i] == [logs[i].ts, logs[i].actor, logs[i].action, logs[i].resource, logs[i].ip, logs[i].detail]
  {
    if logs != [] {
      RecordsAre(logs[1..]);
    }
  }

  lemma ReadsExport(logs: seq<AuditLog>)
    ensures ReadFile(HEADER + RowsText(logs)) == Some([COLUMNS] + Records(logs))
  {
    hide ReadRecord;
    HeaderIsRow();
    ReadsRow(COLUMNS, RowsText(logs));
    ReadsRows(logs);
  }

  /** Reading an export gives back the column names and exactly the records written, their fields
      under the right names. */
  lemma RoundTrip(logs: seq<AuditLog>)
    ensures ReadFile(HEADER + RowsText(logs)) == Some([COLUMNS] + Records(logs))
    ensures COLUMNS == ["ts", "actor", "action", "resource", "ip", "detail"] && |Records(logs)| == |logs|
    ensures forall i :: 0 <= i < |logs| ==>
      Records(logs)[i] == [logs[i].ts, logs[i].actor, logs[i].action, logs[i].resource, logs[i].ip, logs[i].detail]
  {
    ReadsExport(logs);
    hide ReadFile, RowsText, Records;
    RecordsAre(logs);
  }

  lemma HeaderIsRow()
    ensures RowText(COLUMNS) == HEADER
  {
    ColumnsArePlain();
    var l := AuditLog("ts", "actor", "action", "resource", "ip", "detail");
    hide RowText, Special;
    RowOfSix(l);
    HeaderText();
  }

  lemma HeaderText()
    ensures "ts" + "," + ("actor" + "," + ("action" + "," + ("resource" + "," + ("ip" + "," + ("detail" + "\n"))))) == HEADER
  {
    var tail := "resource" + "," + ("ip" + "," + ("detail" + "\n"));
    TailText();
    FrontText(tail);
    assert "ts,actor,action," + "resource,ip,detail\n" == HEADER;
  }

  lemma TailText()
    ensures "resource" + "," + ("ip" + "," + ("detail" + "\n")) == "resource,ip,detail\n"
  {
  }

  lemma FrontText(tail: string)
    ensures "ts" + "," + ("actor" + "," + ("action" + "," + tail)) == "ts,actor,action," + tail
  {
    assert "ts" + "," + ("actor" + "," + "action,") == "ts,actor,action,";
    assert "action" + "," == "action,";
  }

  lemma ColumnsArePlain()
    ensures !Special("ts") && !Special("actor") && !Special("action")
    ensures !Special("resource") && !Special("ip") && !Special("detail")
  {
  }

  lemma {:induction false} RecordsInjective(a: seq<AuditLog>, b: seq<AuditLog>)
    requires Records(a) == Records(b)
    ensures a == b
  {
    if a != [] && b != [] {
      assert Records(a)[0] == Fields(a[0]) && Records(b)[0] == Fields(b[0]);
      assert Records(a)[1..] == Records(a[1..]) && Records(b)[1..] == Records(b[1..]);
      RecordsInjective(a[1..], b[1..]);
      assert Fields(a[0])[0] == a[0].ts && Fields(a[0])[1] == a[0].actor && Fields(a[0])[2] == a[0].action
        && Fields(a[0])[3] == a[0].resource && Fields(a[0])[4] == a[0].ip && Fields(a[0])[5] == a[0].detail;
      assert a == [a[0]] + a[1..] && b == [b[0]] + b[1..];
    }
  }

  /** Different logs have different exports. */
  lemma ExportInjective(a: seq<AuditLog>, b: seq<AuditLog>)
    ensures HEADER + RowsText(a) == HEADER + RowsText(b) ==> a == b
  {
    if HEADER + RowsText(a) == HEADER + RowsText(b) {
      RoundTrip(a);
      RoundTrip(b);
      assert ([COLUMNS] + Records(a))[1..] == Records(a) && ([COLUMNS] + Records(b))[1..] == Records(b);
      RecordsInjective(a, b);
    }
  }
}
