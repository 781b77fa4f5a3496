/** Writing CSV, and reading it back as section 2 of RFC 4180 defines it. */
module Csv {
  import opened Strings
  import opened Wrappers

  type Table = seq<seq<string>>

  predicate IsFormulaTrigger(c: char) {
    c == '=' || c == '+' || c == '-' || c == '@' || c == '\t' || c == '\r'
  }

  predicate NeedsQuotes(c: char) {
    c == '"' || c == ',' || c == '\r' || c == '\n'
  }

  /** What a spreadsheet shall show: a cell that would be a formula gets an apostrophe in front. */
  function Guard(raw: string): (r: string)
    ensures r != "" ==> r[0] !in "=+-@\t\r"
    ensures r == raw || r == "'" + raw
    ensures r != raw <==> raw != "" && raw[0] in "=+-@\t\r"
  {
    if raw != "" && IsFormulaTrigger(raw[0]) then "'" + raw else raw
  }

  function Doubled(value: string): string {
    if value == "" then ""
    else (if value[0] == '"' then "\"\"" else [value[0]]) + Doubled(value[1..])
  }

  function EscapeCsvField(raw: string): string {
    var value := Guard(raw);
    if value != raw || exists i | 0 <= i < |value| :: NeedsQuotes(value[i]) then ['"'] + Doubled(value) + ['"']
    else value
  }

  function WriteRecord(cells: seq<string>): string
    requires cells != []
  {
    if |cells| == 1 then EscapeCsvField(cells[0]) else EscapeCsvField(cells[0]) + ([','] + WriteRecord(cells[1..]))
  }

  predicate HasColumns(t: Table) {
    t != [] && forall i | 0 <= i < |t| :: t[i] != []
  }

  /** The header and the rows, joined by CRLF. */
  function ToCsv(t: Table): string
    requires HasColumns(t)
  {
    if |t| == 1 then WriteRecord(t[0]) else WriteRecord(t[0]) + (['\r', '\n'] + ToCsv(t[1..]))
  }

  // ---- reading --------------------------------------------------------------------------

  /** Inside quotes: up to the closing quote, a doubled one standing for itself. */
  function ReadQuoted(s: string): (r: Option<(string, string)>)
    ensures r.Some? ==> |r.value.1| < |s|
  {
    if s == "" then None
    else if s[0] != '"' then
      var r := ReadQuoted(s[1..]);
      if r.None? then None else Some(([s[0]] + r.value.0, r.value.1))
    else if |s| > 1 && s[1] == '"' then
      var r := ReadQuoted(s[2..]);
      if r.None? then None else Some(("\"" + r.value.0, r.value.1))
    else Some(("", s[1..]))
  }

  function ReadPlain(s: string): (r: (string, string))
    ensures |r.1| <= |s|
  {
    if s == "" || NeedsQuotes(s[0]) then ("", s)
    else var r := ReadPlain(s[1..]); ([s[0]] + r.0, r.1)
  }

  function ReadField(s: string): (r: Option<(string, string)>)
    ensures r.Some? ==> |r.value.1| <= |s|
  {
    if s != "" && s[0] == '"' then ReadQuoted(s[1..]) else Some(ReadPlain(s))
  }

  predicate AtBreak(s: string) {
    |s| >= 2 && s[0] == '\r' && s[1] == '\n'
  }

  /**
   Records from `s` on. A comma ends a field, CRLF a record; the last record may or may not have
   a line break, so nothing follows a final one.
   */
  function Parse(s: string): Option<Table>
    decreases |s|, 2
  {
    if s == "" then Some([]) else ReadRecord(s, [])
  }

  function ReadRecord(s: string, cells: seq<string>): Option<Table>
    decreases |s|, 1
  {
    var f := ReadField(s);
    if f.None? then None else AfterField(cells + [f.value.0], f.value.1)
  }

  function AfterField(record: seq<string>, rest: string): Option<Table>
    decreases |rest|, 0
  {
    if rest == "" then Some([record])
    else if rest[0] == ',' then ReadRecord(rest[1..], record)
    else if AtBreak(rest) then WithRecord(record, Parse(rest[2..]))
    else None
  }

  function WithRecord(record: seq<string>, others: Option<Table>): Option<Table> {
    if others.None? then None else Some([record] + others.value)
  }

  // ---- the round trip -------------------------------------------------------------------

  function GuardAll(cells: seq<string>): seq<string> {
    seq(|cells|, i requires 0 <= i < |cells| => Guard(cells[i]))
  }

  function Guarded(t: Table): Table {
    seq(|t|, i requires 0 <= i < |t| => GuardAll(t[i]))
  }

  /** What may come after a field. */
  predicate EndsField(rest: string) {
    rest == "" || rest[0] == ',' || AtBreak(rest)
  }

  lemma {:induction false} ReadsDoubled(value: string, rest: string)
    requires rest == "" || rest[0] != '"'
    ensures ReadQuoted(Doubled(value) + ['"'] + rest) == Some((value, rest))
  {
    var s := Doubled(value) + ['"'] + rest;
    if value == "" {
      assert s == ['"'] + rest && s[1..] == rest;
    } else {
      var tail := Doubled(value[1..]) + ['"'] + rest;
      ReadsDoubled(value[1..], rest);
      assert value == [value[0]] + value[1..];
      if value[0] == '"' {
        assert s == "\"\"" + tail && s[2..] == tail;
      } else {
        assert s == [value[0]] + tail && s[1..] == tail;
      }
    }
  }

  lemma {:induction false} ReadsPlain(value: string, rest: string)
    requires forall i | 0 <= i < |value| :: !NeedsQuotes(value[i])
    requires EndsField(rest)
    ensures ReadPlain(value + rest) == (value, rest)
  {
    var s := value + rest;
    if value == "" {
      assert s == rest;
    } else {
      ReadsPlain(value[1..], rest);
      assert s[1..] == value[1..] + rest && value == [value[0]] + value[1..];
    }
  }

  predicate Quoted(raw: string) {
    Guard(raw) != raw || exists i | 0 <= i < |Guard(raw)| :: NeedsQuotes(Guard(raw)[i])
  }

  lemma QuotesOpen(inside: string, rest: string)
    ensures (['"'] + inside + ['"'] + rest)[1..] == inside + ['"'] + rest
  {
  }

  lemma ReadsField(raw: string, rest: string)
    requires EndsField(rest)
    ensures ReadField(EscapeCsvField(raw) + rest) == Some((Guard(raw), rest))
  {
    var value, s := Guard(raw), EscapeCsvField(raw) + rest;
    if Quoted(raw) {
      var inside := Doubled(value) + ['"'] + rest;
      ReadsDoubled(value, rest);
      QuotesOpen(Doubled(value), rest);
      assert s[0] == '"' && s[1..] == inside;
    } else {
      ReadsPlain(value, rest);
      assert s == value + rest;
      assert s != "" ==> s[0] != '"';
    }
  }

  lemma ReadsNext(raw: string, cells: seq<string>, rest: string)
    requires EndsField(rest)
    ensures ReadRecord(EscapeCsvField(raw) + rest, cells) == AfterField(cells + [Guard(raw)], rest)
  {
    ReadsField(raw, rest);
  }

  lemma WrittenThen(cells: seq<string>, rest: string)
    requires |cells| > 1
    ensures WriteRecord(cells) + rest == EscapeCsvField(cells[0]) + ([','] + (WriteRecord(cells[1..]) + rest))
  {
    var first, others := EscapeCsvField(cells[0]), WriteRecord(cells[1..]);
    Assoc(first, [','] + others, rest);
    Assoc([','], others, rest);
  }

  lemma GuardFirst(cells: seq<string>, done: seq<string>)
    requires cells != []
    ensures done + GuardAll(cells) == (done + [Guard(cells[0])]) + GuardAll(cells[1..])
  {
  }

  /** Reading on after a written record that is followed by nothing or by a line break. */
  lemma {:induction false} ReadsRecord(cells: seq<string>, done: seq<string>, rest: string)
    requires cells != [] && (rest == "" || AtBreak(rest))
    ensures ReadRecord(WriteRecord(cells) + rest, done) == AfterField(done + GuardAll(cells), rest)
  {
    GuardFirst(cells, done);
    if |cells| == 1 {
      ReadsNext(cells[0], done, rest);
      assert GuardAll(cells[1..]) == [] && done + [Guard(cells[0])] + [] == done + [Guard(cells[0])];
    } else {
      WrittenThen(cells, rest);
      ReadsThen(cells[0], done, WriteRecord(cells[1..]) + rest);
      ReadsRecord(cells[1..], done + [Guard(cells[0])], rest);
    }
  }

  lemma ReadsThen(raw: string, done: seq<string>, more: string)
    ensures ReadRecord(EscapeCsvField(raw) + ([','] + more), done) == ReadRecord(more, done + [Guard(raw)])
  {
    ReadsNext(raw, done, [','] + more);
    assert ([','] + more)[1..] == more;
  }

  lemma AfterBreak(record: seq<string>, more: string)
    ensures AfterField(record, ['\r', '\n'] + more) == WithRecord(record, Parse(more))
  {
  }

  /** A written record is empty only for one empty cell. */
  lemma WrittenIsEmpty(cells: seq<string>)
    requires cells != []
    ensures WriteRecord(cells) == "" <==> cells == [""]
  {
  }

  predicate EndsInEmptyLine(t: Table) {
    t != [] && t[|t| - 1] == [""]
  }

  lemma ReadsLastLine(cells: seq<string>)
    requires cells != []
    ensures Parse(WriteRecord(cells)) == if cells == [""] then Some([]) else Some([GuardAll(cells)])
  {
    WrittenIsEmpty(cells);
    ReadsRecord(cells, [], "");
    assert WriteRecord(cells) + "" == WriteRecord(cells) && [] + GuardAll(cells) == GuardAll(cells);
  }

  lemma ReadsLine(cells: seq<string>, more: string)
    requires cells != []
    ensures Parse(WriteRecord(cells) + (['\r', '\n'] + more)) == WithRecord(GuardAll(cells), Parse(more))
  {
    var rest := ['\r', '\n'] + more;
    ReadsRecord(cells, [], rest);
    assert [] + GuardAll(cells) == GuardAll(cells);
    AfterBreak(GuardAll(cells), more);
  }

  /** The lines that are left once a last line of one empty cell is lost. */
  function Kept(t: Table): Table {
    if EndsInEmptyLine(t) then t[..|t| - 1] else t
  }

  lemma KeptFirst(t: Table)
    requires |t| > 1
    ensures Guarded(Kept(t)) == [GuardAll(t[0])] + Guarded(Kept(t[1..]))
  {
  }

  lemma {:induction false} ReadsKept(t: Table)
    requires HasColumns(t)
    ensures Parse(ToCsv(t)) == Some(Guarded(Kept(t)))
  {
    if |t| == 1 {
      ReadsLastLine(t[0]);
      assert Guarded(Kept(t)) == if t[0] == [""] then [] else [GuardAll(t[0])];
    } else {
      KeptFirst(t);
      ReadsLine(t[0], ToCsv(t[1..]));
      ReadsKept(t[1..]);
    }
  }

  /**
   Reading what was written gives back every cell, formula triggers guarded, exactly when the
   last line is not a single empty cell; with two or more columns it never is.
   */
  lemma RoundTrip(t: Table)
    requires HasColumns(t)
    ensures Parse(ToCsv(t)) == Some(Guarded(t)) <==> !EndsInEmptyLine(t)
  {
    ReadsKept(t);
    assert |Guarded(Kept(t))| == |Kept(t)|;
  }

  /** A formula, and the same text behind an apostrophe. */
  predicate GuardedTwin(a: string, b: string) {
    a != "" && IsFormulaTrigger(a[0]) && b == "'" + a
  }

  /** Guarding makes two cells the same only when one is a formula and the other that formula behind an apostrophe. */
  lemma GuardMerges(a: string, b: string)
    ensures Guard(a) == Guard(b) <==> a == b || GuardedTwin(a, b) || GuardedTwin(b, a)
  {
    assert ("'" + a)[1..] == a && ("'" + b)[1..] == b;
  }

  /** Two tables written the same differ, cell by cell, at most by such apostrophes. */
  lemma SameTextSameCells(t: Table, u: Table)
    requires HasColumns(t) && HasColumns(u) && !EndsInEmptyLine(t) && !EndsInEmptyLine(u) && ToCsv(t) == ToCsv(u)
    ensures |t| == |u| && forall i | 0 <= i < |t| :: |t[i]| == |u[i]|
    ensures forall i, j | 0 <= i < |t| && 0 <= j < |t[i]| ::
              t[i][j] == u[i][j] || GuardedTwin(t[i][j], u[i][j]) || GuardedTwin(u[i][j], t[i][j])
  {
    RoundTrip(t);
    RoundTrip(u);
    var read := Guarded(t);
    forall i | 0 <= i < |t| ensures |t[i]| == |u[i]| {
      assert |read[i]| == |t[i]| && |Guarded(u)[i]| == |u[i]|;
    }
    forall i, j | 0 <= i < |t| && 0 <= j < |t[i]|
      ensures t[i][j] == u[i][j] || GuardedTwin(t[i][j], u[i][j]) || GuardedTwin(u[i][j], t[i][j])
    {
      assert read[i][j] == Guard(t[i][j]) && Guarded(u)[i][j] == Guard(u[i][j]);
      GuardMerges(t[i][j], u[i][j]);
    }
  }
}
