/** The CSV writer `rowsToCsv` with its field escaper, and the line parser `importCSV` uses. */
module Csv {
  import opened Text

  /** `s.replace(/"/g, '""')`. */
  function DoubleQuotes(s: string): (r: string)
    ensures |r| == |s| + Count(s, '"')
  {
    if |s| == 0 then ""
    else (if s[0] == '"' then "\"\"" else [s[0]]) + DoubleQuotes(s[1..])
  }

  predicate NeedsQuotes(s: string) {
    ',' in s || '"' in s || '\n' in s
  }

  /** `esc`: a field is quoted, with inner quotes doubled, iff it holds a comma, a quote
      or a line feed. */
  function Esc(s: string): (r: string)
    ensures NeedsQuotes(s) ==> |r| >= 2 && r[0] == '"' && r[|r| - 1] == '"'
    ensures !NeedsQuotes(s) ==> r == s
  {
    if NeedsQuotes(s) then "\"" + DoubleQuotes(s) + "\"" else s
  }

  function EscAll(fields: seq<string>): (r: seq<string>)
    ensures |r| == |fields|
  {
    if |fields| == 0 then [] else [Esc(fields[0])] + EscAll(fields[1..])
  }

  /** One record as a line: its escaped fields joined by commas. */
  function Row(fields: seq<string>): string {
    Join(EscAll(fields), ',')
  }

  /** `rowsToCsv(head, rows)`, with each row already laid out in header order. The header
      line itself is not escaped. */
  function RowsToCsv(head: seq<string>, rows: seq<seq<string>>): string {
    Join([Join(head, ',')] + RowLines(rows), '\n')
  }

  function RowLines(rows: seq<seq<string>>): (r: seq<string>)
    ensures |r| == |rows|
    ensures forall i :: 0 <= i < |rows| ==> r[i] == Row(rows[i])
  {
    if |rows| == 0 then [] else [Row(rows[0])] + RowLines(rows[1..])
  }

  /** The `parse` automaton of `importCSV`: `rest` is the unread part of the line, `quoted`
      the state, `cur` the field being read and `done` the fields already closed. */
  function Parse(rest: string, quoted: bool, cur: string, done: seq<string>): (r: seq<string>)
    decreases |rest|
  {
    if |rest| == 0 then done + [cur]
    else
      var ch := rest[0];
      if quoted then
        if ch == '"' then
          if |rest| > 1 && rest[1] == '"' then Parse(rest[2..], true, cur + "\"", done)
          else Parse(rest[1..], false, cur, done)
        else Parse(rest[1..], true, cur + [ch], done)
      else if ch == '"' then Parse(rest[1..], true, cur, done)
      else if ch == ',' then Parse(rest[1..], false, "", done + [cur])
      else Parse(rest[1..], false, cur + [ch], done)
  }

  /** `parse(line)`. */
  function ParseLine(line: string): (r: seq<string>)
    ensures |r| >= 1
  {
    ParseCount(line, false, "", []);
    Parse(line, false, "", [])
  }

  /** The commas that are not inside quotes, where every quote character flips between
      inside and outside. */
  function CommasOutside(rest: string, quoted: bool): nat
    decreases |rest|
  {
    if |rest| == 0 then 0
    else if rest[0] == '"' then CommasOutside(rest[1..], !quoted)
    else if rest[0] == ',' && !quoted then 1 + CommasOutside(rest[1..], quoted)
    else CommasOutside(rest[1..], quoted)
  }

  /** A line has one field more than it has commas outside quotes. */
  lemma {:induction false} ParseCount(rest: string, quoted: bool, cur: string, done: seq<string>)
    ensures |Parse(rest, quoted, cur, done)| == |done| + 1 + CommasOutside(rest, quoted)
    decreases |rest|
  {
    if |rest| > 0 {
      var ch := rest[0];
      if quoted && ch == '"' && |rest| > 1 && rest[1] == '"' {
        ParseCount(rest[2..], true, cur + "\"", done);
        assert rest[1..][1..] == rest[2..];
      } else if quoted && ch == '"' {
        ParseCount(rest[1..], false, cur, done);
      } else if quoted {
        ParseCount(rest[1..], true, cur + [ch], done);
      } else if ch == '"' {
        ParseCount(rest[1..], true, cur, done);
      } else if ch == ',' {
        ParseCount(rest[1..], false, "", done + [cur]);
      } else {
        ParseCount(rest[1..], false, cur + [ch], done);
      }
    }
  }

  lemma {:induction false} FieldsFromParse(line: string)
    ensures |ParseLine(line)| == 1 + CommasOutside(line, false)
  {
    ParseCount(line, false, "", []);
  }

  /** Unquoted text without commas or quotes is read into the current field. */
  lemma {:induction false} ParsePlain(f: string, rest: string, cur: string, done: seq<string>)
    requires ',' !in f && '"' !in f
    ensures Parse(f + rest, false, cur, done) == Parse(rest, false, cur + f, done)
  {
    if |f| > 0 {
      assert (f + rest)[0] == f[0] && (f + rest)[1..] == f[1..] + rest;
      assert ',' !in f[1..] && '"' !in f[1..];
      ParsePlain(f[1..], rest, cur + [f[0]], done);
      assert cur + [f[0]] + f[1..] == cur + f;
    } else {
      assert f + rest == rest && cur + f == cur;
    }
  }

  /** Inside quotes, doubled quotes read back as single ones. */
  lemma {:induction false} ParseQuoted(f: string, rest: string, cur: string, done: seq<string>)
    ensures Parse(DoubleQuotes(f) + "\"" + rest, true, cur, done) == Parse("\"" + rest, true, cur + f, done)
  {
    if |f| > 0 {
      var tail := DoubleQuotes(f[1..]) + "\"" + rest;
      ParseQuoted(f[1..], rest, cur + [f[0]], done);
      if f[0] == '"' {
        assert DoubleQuotes(f) + "\"" + rest == "\"\"" + tail;
        assert ("\"\"" + tail)[2..] == tail;
      } else {
        assert DoubleQuotes(f) + "\"" + rest == [f[0]] + tail;
        assert ([f[0]] + tail)[1..] == tail;
      }
      assert cur + [f[0]] + f[1..] == cur + f;
    } else {
      assert DoubleQuotes(f) + "\"" + rest == "\"" + rest && cur + f == cur;
    }
  }

  /** An escaped field followed by the end of the line or a comma reads back as itself. */
  lemma {:induction false} ParseEsc(f: string, rest: string, done: seq<string>)
    requires rest == [] || rest[0] == ','
    ensures Parse(Esc(f) + rest, false, "", done) == Parse(rest, false, f, done)
  {
    if NeedsQuotes(f) {
      var body := DoubleQuotes(f) + "\"" + rest;
      assert Esc(f) + rest == "\"" + body;
      assert ("\"" + body)[1..] == body;
      ParseQuoted(f, rest, "", done);
      assert ("\"" + rest)[1..] == rest;
      assert "" + f == f;
    } else {
      ParsePlain(f, rest, "", done);
      assert "" + f == f;
    }
  }

  /** Reading a line the writer produced gives back the fields, whatever they hold. */
  lemma {:induction false} ParseRow(fields: seq<string>, done: seq<string>)
    requires |fields| >= 1
    ensures Parse(Row(fields), false, "", done) == done + fields
  {
    var e := EscAll(fields);
    if |fields| == 1 {
      assert Row(fields) == Esc(fields[0]) + "";
      ParseEsc(fields[0], "", done);
    } else {
      var rest := Row(fields[1..]);
      assert e[1..] == EscAll(fields[1..]);
      assert Row(fields) == Esc(fields[0]) + ("," + rest);
      ParseEsc(fields[0], "," + rest, done);
      assert ("," + rest)[1..] == rest;
      ParseRow(fields[1..], done + [fields[0]]);
      assert done + [fields[0]] + fields[1..] == done + fields;
    }
  }

  lemma {:induction false} RowRoundTrip(fields: seq<string>)
    requires |fields| >= 1
    ensures ParseLine(Row(fields)) == fields
  {
    ParseRow(fields, []);
  }

  lemma {:induction false} DoubleQuotesFree(s: string, c: char)
    requires c != '"' && c !in s
    ensures c !in DoubleQuotes(s)
  {
    if |s| > 0 {
      assert c !in s[1..];
      DoubleQuotesFree(s[1..], c);
    }
  }

  /** Escaping adds only quotes, so a line made of fields free of `c` is free of `c`. */
  lemma {:induction false} RowFree(fields: seq<string>, c: char)
    requires c != '"' && c != ','
    requires forall k :: 0 <= k < |fields| ==> c !in fields[k]
    ensures c !in Row(fields)
  {
    var e := EscAll(fields);
    forall k | 0 <= k < |e|
      ensures c !in e[k]
    {
      EscAllAt(fields, k);
      DoubleQuotesFree(fields[k], c);
    }
    JoinFree(e, ',', c);
  }

  lemma {:induction false} EscAllAt(fields: seq<string>, k: nat)
    requires k < |fields|
    ensures EscAll(fields)[k] == Esc(fields[k])
  {
    if k > 0 {
      EscAllAt(fields[1..], k - 1);
    }
  }
}
