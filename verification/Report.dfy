/** scripts/report_parser.py: the loop that turns a report into rows. */
module Report {
  import opened Options
  import opened Text

  // ---- one line

  function Lower(c: char): char { if 'A' <= c <= 'Z' then c + ' ' else c }

  function LowerAll(s: string): string { seq(|s|, i requires 0 <= i < |s| => Lower(s[i])) }

  datatype ErrorType = Unsaved | Overwritten | OutOfScope | Undetected

  function TypeOf(line: string): ErrorType {
    if Contains(LowerAll(line), "is not saved") then Unsaved
    else if Contains(LowerAll(line), "overwriting") then Overwritten
    else if Contains(LowerAll(line), "out of scope") then OutOfScope
    else Undetected
  }

  const RECEIVES := "receives an error from function "
  const HEADER := "Error codes: "
  const BAR := "===="

  /** The start of the word that ends at n. */
  function WordStart(s: string, n: nat): nat { if 0 < n <= |s| && !IsSpace(s[n - 1]) then WordStart(s, n - 1) else n }

  /** The last word: split()[-1]. */
  function LastWord(s: string): string {
    if WordStart(s, End(s)) <= End(s) <= |s| then s[WordStart(s, End(s))..End(s)] else ""
  }

  function DropLeading(s: string, c: char): string { if s != "" && s[0] == c then DropLeading(s[1..], c) else s }

  function DropTrailing(s: string, drop: char -> bool): string {
    if s != "" && drop(s[|s| - 1]) then DropTrailing(s[..|s| - 1], drop) else s
  }

  predicate IsQuote(c: char) { c == '"' }

  predicate IsDigit(c: char) { '0' <= c <= '9' }

  function FunctionName(line: string): string {
    if Contains(line, RECEIVES) then DropTrailing(DropTrailing(DropLeading(LastWord(line), '"'), IsQuote), IsDigit)
    else ""
  }

  datatype Line = Header(code: string) | Empty | Bar | Plain

  function Classify(line: string): Line {
    if StartsWith(line, HEADER) && |line| > |HEADER| then Header(line[|HEADER|..])
    else if line == "" then Empty
    else if Contains(line, BAR) then Bar
    else Plain
  }

  // ---- one row

  datatype Entry = Entry(
    validity: string, dropping: string, fpType: string, sha: string, examiner: string, date: string, notes: string)

  /** What the old csv says: by file and line, and the functions some row marks VALID. */
  datatype Old = Old(entries: map<string, Entry>, valid: set<string>)

  datatype Row = Row(
    code: Option<string>, file: string, kind: ErrorType, validity: string, fpType: string, dropping: string,
    source: string, sha: string, examiner: string, date: string, notes: string)

  /** What a run is given besides the report: the old csv, the sha, and what the path expression finds in a line. */
  datatype Given = Given(csv: Option<Old>, sha: string, path: string -> string)

  /** The old entry an unsaved error matches. */
  function Match(g: Given, file: string, kind: ErrorType, dropping: string): Option<Entry> {
    if g.csv.Some? && kind == Unsaved && file in g.csv.value.entries
       && dropping == g.csv.value.entries[file].dropping
    then Some(g.csv.value.entries[file]) else None
  }

  predicate KnownValid(g: Given, kind: ErrorType, dropping: string) {
    g.csv.Some? && kind == Unsaved && dropping in g.csv.value.valid
  }

  function RowOf(g: Given, code: Option<string>, temp: seq<string>): Row
    requires |temp| > 1
  {
    var file, kind, dropping := g.path(temp[0]), TypeOf(temp[0]), FunctionName(temp[1]);
    var source := g.path(temp[|temp| - 1]);
    var row := match Match(g, file, kind, dropping)
      case Some(e) => Row(code, file, kind, e.validity, e.fpType, dropping, source, e.sha, e.examiner, e.date, e.notes)
      case None => Row(code, file, kind, "", "", dropping, source, g.sha, "", "", "");
    if KnownValid(g, kind, dropping) && row.validity == "" then row.(validity := "VALID") else row
  }

  // ---- the loop, one line at a time

  datatype State = State(
    code: Option<string>, block: bool, condensed: bool, temp: seq<string>, counter: nat,
    rows: seq<Row>, matched: nat, missing: nat, marked: nat)

  const START := State(None, false, false, [], 0, [], 0, 0, 0)

  function Add(b: bool): nat { if b then 1 else 0 }

  /** The end of a block. */
  function Emit(g: Given, s: State): State
    requires |s.temp| > 1
  {
    var file, kind, dropping := g.path(s.temp[0]), TypeOf(s.temp[0]), FunctionName(s.temp[1]);
    var m := Match(g, file, kind, dropping);
    State(None, false, false, [], s.counter, s.rows + [RowOf(g, s.code, s.temp)],
          s.matched + Add(m.Some?),
          s.missing + Add(g.csv.Some? && kind == Unsaved && m.None?),
          s.marked + Add(KnownValid(g, kind, dropping) && (m.None? || m.value.validity == "")))
  }

  /** One turn of the loop. None is the NameError that an end with fewer than two collected lines runs into. */
  function Step(g: Given, s: State, line: Line, text: string): Option<State> {
    if line.Header? then Some(s.(code := Some(line.code), block := true, temp := [], counter := 0))
    else if s.block && line.Empty? then
      Some(s.(counter := s.counter + 1, condensed := s.condensed || s.counter + 1 == 2))
    else if line.Bar? && s.condensed then if |s.temp| > 1 then Some(Emit(g, s)) else None
    else if s.condensed then Some(s.(temp := s.temp + [text]))
    else Some(s)
  }

  /** The state after some lines. */
  function Run(g: Given, s: State, lines: seq<string>): Option<State> {
    if lines == [] then Some(s)
    else match Run(g, s, lines[..|lines| - 1])
      case None => None
      case Some(t) => Step(g, t, Classify(lines[|lines| - 1]), lines[|lines| - 1])
  }

  lemma RunNext(g: Given, s: State, lines: seq<string>, i: nat)
    requires i < |lines|
    ensures Run(g, s, lines[..i + 1]) ==
      match Run(g, s, lines[..i]) case None => None case Some(t) => Step(g, t, Classify(lines[i]), lines[i])
  {
    assert lines[..i + 1][..i] == lines[..i];
  }

  lemma {:induction false} RunFails(g: Given, s: State, lines: seq<string>, i: nat)
    requires i <= |lines| && Run(g, s, lines[..i]).None?
    ensures Run(g, s, lines).None?
    decreases |lines| - i
  {
    if i < |lines| {
      RunNext(g, s, lines, i);
      RunFails(g, s, lines, i + 1);
    } else {
      assert lines[..i] == lines;
    }
  }

  /** The loop over the stripped lines of the report. */
  method ParseReport(lines: seq<string>, g: Given) returns (r: Option<State>)
    ensures r == Run(g, START, lines)
  {
    var code: Option<string>, blockStart, condensed, temp: seq<string>, lineCounter := None, false, false, [], 0;
    var rows: seq<Row>, matched, missing, marked := [], 0, 0, 0;
    for i := 0 to |lines|
      invariant Run(g, START, lines[..i]) ==
        Some(State(code, blockStart, condensed, temp, lineCounter, rows, matched, missing, marked))
    {
      RunNext(g, START, lines, i);
      var line := lines[i];
      if StartsWith(line, HEADER) && |line| > |HEADER| {
        code := Some(line[|HEADER|..]);
        blockStart := true;
        temp := [];
        lineCounter := 0;
      } else if blockStart && line == "" {
        lineCounter := lineCounter + 1;
        if lineCounter == 2 {
          condensed := true;
        }
      } else if Contains(line, BAR) && condensed {
        if |temp| <= 1 {
          RunFails(g, START, lines, i + 1);
          return None;
        }
        var end := EndBlock(g, State(code, blockStart, condensed, temp, lineCounter, rows, matched, missing, marked));
        rows, matched, missing, marked := end.rows, end.matched, end.missing, end.marked;
        code, temp, blockStart, condensed := None, [], false, false;
      } else if condensed {
        temp := temp + [line];
      }
    }
    assert lines[..|lines|] == lines;
    r := Some(State(code, blockStart, condensed, temp, lineCounter, rows, matched, missing, marked));
  }

  /** The row of a block, and the counters kept with it. */
  method EndBlock(g: Given, s: State) returns (end: State)
    requires |s.temp| > 1
    ensures end == Emit(g, s)
  {
    var file, kind := g.path(s.temp[0]), TypeOf(s.temp[0]);
    var validity, fpType, sha, examiner, date, notes := "", "", g.sha, "", "", "";
    var dropping, source := FunctionName(s.temp[1]), g.path(s.temp[|s.temp| - 1]);
    var matched, missing, marked := s.matched, s.missing, s.marked;
    if g.csv.Some? {
      if kind == Unsaved {
        if file in g.csv.value.entries && dropping == g.csv.value.entries[file].dropping {
          var e := g.csv.value.entries[file];
          validity, fpType, sha, examiner, date, notes := e.validity, e.fpType, e.sha, e.examiner, e.date, e.notes;
          matched := matched + 1;
        } else {
          missing := missing + 1;
        }
      }
      if kind == Unsaved && dropping in g.csv.value.valid && validity == "" {
        validity := "VALID";
        marked := marked + 1;
      }
    }
    var row := Row(s.code, file, kind, validity, fpType, dropping, source, sha, examiner, date, notes);
    end := State(None, false, false, [], s.counter, s.rows + [row], matched, missing, marked);
  }

  // ---- the old csv

  function JoinWith(fields: seq<string>, sep: string): string {
    if fields == [] then ""
    else if |fields| == 1 then fields[0]
    else fields[0] + sep + JoinWith(fields[1..], sep)
  }

  /** One more note stands behind another separator. */
  lemma {:induction false} JoinedNotes(fields: seq<string>, last: string, sep: string)
    requires fields != []
    ensures JoinWith([last], sep) == last
    ensures JoinWith(fields + [last], sep) == JoinWith(fields, sep) + sep + last
  {
    if |fields| == 1 {
      assert (fields + [last])[1..] == [last];
    } else {
      assert (fields + [last])[1..] == fields[1..] + [last];
      JoinedNotes(fields[1..], last, sep);
    }
  }

  function EntryOf(row: seq<string>): Entry
    requires |row| >= 10
  {
    Entry(row[3], row[5], row[4], row[7], row[8], row[9], JoinWith(row[10..], ";"))
  }

  /** Where the fields of an entry stand; whatever follows the tenth is one more note. */
  lemma EntryColumns(row: seq<string>, more: string)
    requires |row| >= 10
    ensures var e := EntryOf(row);
            && e.validity == row[3] && e.fpType == row[4] && e.dropping == row[5]
            && e.sha == row[7] && e.examiner == row[8] && e.date == row[9]
            && (|row| == 10 ==> e.notes == "") && (|row| == 11 ==> e.notes == row[10])
    ensures |row| > 10 ==> EntryOf(row + [more]).notes == EntryOf(row).notes + ";" + more
  {
    if |row| > 10 {
      JoinedNotes(row[10..], more, ";");
      assert (row + [more])[10..] == row[10..] + [more];
    }
  }

  ghost predicate Wide(rows: seq<seq<string>>) { forall k :: 0 <= k < |rows| ==> |rows[k]| >= 10 }

  /** The entries after some rows: a later row replaces an earlier one for the same file and line. */
  function EntriesOf(rows: seq<seq<string>>): map<string, Entry>
    requires Wide(rows)
  {
    if rows == [] then map[]
    else var row := rows[|rows| - 1]; EntriesOf(rows[..|rows| - 1])[row[1] := EntryOf(row)]
  }

  function ValidOf(rows: seq<seq<string>>): set<string>
    requires Wide(rows)
  {
    if rows == [] then {}
    else
      var row := rows[|rows| - 1];
      ValidOf(rows[..|rows| - 1]) + if row[3] == "VALID" then {row[5]} else {}
  }

  /** The loop over the old csv. None is the IndexError of a row with fewer than ten fields. */
  method LoadOld(rows: seq<seq<string>>) returns (r: Option<Old>)
    ensures r.Some? <==> Wide(rows)
    ensures r.Some? ==> r.value == Old(EntriesOf(rows), ValidOf(rows))
  {
    var entries: map<string, Entry>, valid: set<string> := map[], {};
    for n := 0 to |rows|
      invariant Wide(rows[..n]) && entries == EntriesOf(rows[..n]) && valid == ValidOf(rows[..n])
    {
      var row := rows[n];
      if |row| < 10 {
        return None;
      }
      assert rows[..n + 1][..n] == rows[..n] && rows[..n + 1][n] == row;
      entries := entries[row[1] := EntryOf(row)];
      if row[3] == "VALID" {
        valid := valid + {row[5]};
      }
    }
    assert rows[..|rows|] == rows;
    r := Some(Old(entries, valid));
  }

  /** Row i is the last one for its file and line. */
  ghost predicate LastFor(rows: seq<seq<string>>, i: nat)
    requires i < |rows| && Wide(rows)
  {
    forall k :: i < k < |rows| ==> rows[k][1] != rows[i][1]
  }

  /** The entry of a file and line is the one of its last row. */
  lemma {:induction false} EntriesMeaning(rows: seq<seq<string>>, i: nat)
    requires Wide(rows) && i < |rows| && LastFor(rows, i)
    ensures rows[i][1] in EntriesOf(rows) && EntriesOf(rows)[rows[i][1]] == EntryOf(rows[i])
    decreases |rows|
  {
    var init := rows[..|rows| - 1];
    if i < |init| {
      assert rows[|rows| - 1][1] != rows[i][1];
      assert init[i] == rows[i] && forall k :: i < k < |init| ==> init[k] == rows[k];
      EntriesMeaning(init, i);
    }
  }

  ghost predicate MarksValid(row: seq<string>, f: string)
    requires |row| >= 10
  {
    row[3] == "VALID" && row[5] == f
  }

  /** A function is known valid when some row says so. */
  lemma {:induction false} ValidMeaning(rows: seq<seq<string>>, f: string)
    requires Wide(rows)
    ensures f in ValidOf(rows) <==> exists i :: 0 <= i < |rows| && MarksValid(rows[i], f)
    decreases |rows|
  {
    if rows != [] {
      var init, last := rows[..|rows| - 1], |rows| - 1;
      ValidMeaning(init, f);
      if i :| 0 <= i < |init| && MarksValid(init[i], f) {
        assert MarksValid(rows[i], f);
      }
      if i :| 0 <= i < |rows| && MarksValid(rows[i], f) && i != last {
        assert MarksValid(init[i], f);
      }
      assert MarksValid(rows[last], f) == (rows[last][3] == "VALID" && rows[last][5] == f);
    }
  }
}
