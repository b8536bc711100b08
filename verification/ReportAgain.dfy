/** Feeding the rows of a run back as the old csv of the next one. */
module ReportAgain {
  import opened Options
  import opened Report
  import opened ReportRuns

  function KindName(k: ErrorType): string {
    match k
    case Unsaved => "Unsaved"
    case Overwritten => "Overwritten"
    case OutOfScope => "Out of scope"
    case Undetected => "Undetected"
  }

  /** Different kinds have different names, and none is the mark of a valid row. */
  lemma KindNames(a: ErrorType, b: ErrorType)
    ensures KindName(a) == KindName(b) <==> a == b
    ensures KindName(a) != "VALID"
  {
    assert |KindName(Unsaved)| == 7 && |KindName(Overwritten)| == 11;
    assert |KindName(OutOfScope)| == 12 && |KindName(Undetected)| == 10;
  }

  /** The fields of a row, in the order the parser's comment gives. */
  function FieldsOf(r: Row): seq<string> {
    [match r.code case Some(c) => c case None => "", r.file, KindName(r.kind), r.validity, r.fpType, r.dropping,
     r.source, r.sha, r.examiner, r.date, r.notes]
  }

  function Written(rows: seq<Row>): (w: seq<seq<string>>)
    ensures |w| == |rows| && Wide(w)
  {
    seq(|rows|, i requires 0 <= i < |rows| => FieldsOf(rows[i]))
  }

  /** Reading a written row as an entry of the old csv finds every field in its place. */
  lemma EntryOfFields(r: Row)
    ensures |FieldsOf(r)| == 11 && FieldsOf(r)[1] == r.file
    ensures EntryOf(FieldsOf(r)) == Entry(r.validity, r.dropping, r.fpType, r.sha, r.examiner, r.date, r.notes)
  {
    assert FieldsOf(r)[10..] == [r.notes];
  }

  // ---- who is known valid

  predicate EntryCoherent(o: Old, f: string)
    requires f in o.entries
  {
    o.entries[f].validity == "VALID" ==> o.entries[f].dropping in o.valid
  }

  /** An entry marked VALID is about a function known valid. */
  ghost predicate Coherent(g: Given) {
    g.csv.Some? ==> forall f :: f in g.csv.value.entries ==> EntryCoherent(g.csv.value, f)
  }

  lemma {:induction false} EntriesFrom(rows: seq<seq<string>>, f: string)
    requires Wide(rows) && f in EntriesOf(rows)
    ensures exists i :: 0 <= i < |rows| && EntryFrom(rows, i, f)
    decreases |rows|
  {
    var init, last := rows[..|rows| - 1], |rows| - 1;
    if f == rows[last][1] {
      assert EntryFrom(rows, last, f);
    } else {
      EntriesFrom(init, f);
      var i :| 0 <= i < |init| && EntryFrom(init, i, f);
      assert EntryFrom(rows, i, f);
    }
  }

  ghost predicate EntryFrom(rows: seq<seq<string>>, i: nat, f: string)
    requires Wide(rows) && i < |rows| && f in EntriesOf(rows)
  {
    EntriesOf(rows)[f] == EntryOf(rows[i])
  }

  /** Every old csv that loads is coherent. */
  lemma LoadedCoherent(g: Given, rows: seq<seq<string>>)
    requires Wide(rows) && g.csv == Some(Old(EntriesOf(rows), ValidOf(rows)))
    ensures Coherent(g)
  {
    forall f | f in EntriesOf(rows) ensures EntryCoherent(g.csv.value, f) {
      if EntriesOf(rows)[f].validity == "VALID" {
        EntriesFrom(rows, f);
        var i :| 0 <= i < |rows| && EntryFrom(rows, i, f);
        assert MarksValid(rows[i], EntriesOf(rows)[f].dropping);
        ValidMeaning(rows, EntriesOf(rows)[f].dropping);
      }
    }
  }

  /** A row marked VALID is about a function known valid. */
  predicate Sound(g: Given, r: Row) { r.validity == "VALID" ==> g.csv.Some? && r.dropping in g.csv.value.valid }

  ghost predicate AllSound(g: Given, rows: seq<Row>) { forall i :: 0 <= i < |rows| ==> Sound(g, rows[i]) }

  lemma RowSound(g: Given, code: Option<string>, temp: seq<string>)
    requires Coherent(g) && |temp| > 1
    ensures Sound(g, RowOf(g, code, temp))
  {
    var file := g.path(temp[0]);
    assert g.csv.Some? && file in g.csv.value.entries ==> EntryCoherent(g.csv.value, file);
  }

  /** A run marks no row VALID unless the old csv knows its dropping function as valid. */
  lemma {:induction false} RunSound(g: Given, lines: seq<string>)
    requires Coherent(g) && Run(g, START, lines).Some?
    ensures AllSound(g, Run(g, START, lines).value.rows)
    decreases |lines|
  {
    if lines != [] {
      var init, l := lines[..|lines| - 1], lines[|lines| - 1];
      assert init + [l] == lines;
      RunSound(g, init);
      RowAdded(g, init, l);
      var s, t := Run(g, START, init).value, Run(g, START, lines).value;
      if t.rows != s.rows {
        SoundNext(g, s, HeaderCodes(init), Classify(l), t);
      }
    }
  }

  lemma SoundNext(g: Given, s: State, codes: seq<string>, line: Line, t: State)
    requires Coherent(g) && AllSound(g, s.rows) && EndsBlock(g, s, codes, line, t)
    ensures AllSound(g, t.rows)
  {
    RowSound(g, Some(codes[|codes| - 1]), s.temp);
  }

  // ---- the next run

  /** The same run with the given rows as its old csv. */
  function Again(g: Given, rows: seq<Row>): Given {
    g.(csv := Some(Old(EntriesOf(Written(rows)), ValidOf(Written(rows)))))
  }

  /** The written rows know no more functions as valid than the csv they came from. */
  lemma NothingNewValid(g: Given, rows: seq<Row>, f: string)
    requires AllSound(g, rows) && f in ValidOf(Written(rows))
    ensures g.csv.Some? && f in g.csv.value.valid
  {
    ValidMeaning(Written(rows), f);
    var i :| 0 <= i < |rows| && MarksValid(Written(rows)[i], f);
    assert Sound(g, rows[i]);
  }

  /** An unsaved error that is the last row for its file and line gets exactly the same row when the report is parsed
      again with the rows of the run as the old csv. */
  lemma SameRowAgain(g: Given, rows: seq<Row>, i: nat, code: Option<string>, temp: seq<string>)
    requires AllSound(g, rows) && |temp| > 1 && i < |rows|
    requires rows[i] == RowOf(g, code, temp) && rows[i].kind == Unsaved && LastFor(Written(rows), i)
    ensures RowOf(Again(g, rows), code, temp) == rows[i]
  {
    var r, g2 := rows[i], Again(g, rows);
    RowFields(g, code, temp);
    EntryOfFields(r);
    EntriesMeaning(Written(rows), i);
    assert Written(rows)[i] == FieldsOf(r);
    assert Match(g2, r.file, r.kind, r.dropping) == Some(EntryOf(FieldsOf(r)));
    if r.dropping in ValidOf(Written(rows)) {
      NothingNewValid(g, rows, r.dropping);
    }
  }

  // ---- a whole run again

  /** Two rows made from the same block with different old csvs. */
  ghost predicate SameBlock(g: Given, g2: Given, a: Row, b: Row, code: Option<string>, temp: seq<string>) {
    |temp| > 1 && a == RowOf(g, code, temp) && b == RowOf(g2, code, temp)
  }

  ghost predicate Paired(g: Given, g2: Given, a: Row, b: Row) {
    exists code, temp :: SameBlock(g, g2, a, b, code, temp)
  }

  /** Two runs over the same lines with different old csvs. */
  ghost predicate Lockstep(g: Given, g2: Given, s: State, s2: State) {
    && s2.code == s.code && s2.block == s.block && s2.condensed == s.condensed
    && s2.temp == s.temp && s2.counter == s.counter && |s2.rows| == |s.rows|
    && forall i :: 0 <= i < |s.rows| ==> Paired(g, g2, s.rows[i], s2.rows[i])
  }

  lemma EmitLockstep(g: Given, g2: Given, s: State, s2: State)
    requires Lockstep(g, g2, s, s2) && |s.temp| > 1
    ensures Lockstep(g, g2, Emit(g, s), Emit(g2, s2))
  {
    var t, t2 := Emit(g, s), Emit(g2, s2);
    forall i | 0 <= i < |t.rows| ensures Paired(g, g2, t.rows[i], t2.rows[i]) {
      if i < |s.rows| {
        assert Paired(g, g2, s.rows[i], s2.rows[i]);
      } else {
        assert SameBlock(g, g2, t.rows[i], t2.rows[i], s.code, s.temp);
      }
    }
  }

  lemma StepLockstep(g: Given, g2: Given, s: State, s2: State, line: Line, text: string)
    requires Lockstep(g, g2, s, s2)
    ensures Step(g, s, line, text).Some? <==> Step(g2, s2, line, text).Some?
    ensures Step(g, s, line, text).Some? ==>
      Lockstep(g, g2, Step(g, s, line, text).value, Step(g2, s2, line, text).value)
  {
    if !line.Header? && !(s.block && line.Empty?) && line.Bar? && s.condensed && |s.temp| > 1 {
      EmitLockstep(g, g2, s, s2);
    }
  }

  /** Where the blocks are and whether parsing fails does not depend on the old csv. */
  lemma {:induction false} RunLockstep(g: Given, g2: Given, lines: seq<string>)
    ensures Run(g, START, lines).Some? <==> Run(g2, START, lines).Some?
    ensures Run(g, START, lines).Some? ==> Lockstep(g, g2, Run(g, START, lines).value, Run(g2, START, lines).value)
    decreases |lines|
  {
    if lines != [] {
      var init, l := lines[..|lines| - 1], lines[|lines| - 1];
      RunLockstep(g, g2, init);
      if Run(g, START, init).Some? {
        StepLockstep(g, g2, Run(g, START, init).value, Run(g2, START, init).value, Classify(l), l);
      }
    }
  }

  /** Parsing the same report again with its own rows as the old csv gives as many rows, and the very same row for
      every unsaved error that is the last one for its file and line: no judgement is lost or invented. */
  lemma RunAgain(g: Given, lines: seq<string>, i: nat)
    requires Coherent(g) && Run(g, START, lines).Some?
    requires i < |Run(g, START, lines).value.rows| && Run(g, START, lines).value.rows[i].kind == Unsaved
    requires LastFor(Written(Run(g, START, lines).value.rows), i)
    ensures var rows := Run(g, START, lines).value.rows; var again := Run(Again(g, rows), START, lines);
            again.Some? && |again.value.rows| == |rows| && again.value.rows[i] == rows[i]
  {
    var rows := Run(g, START, lines).value.rows;
    var g2 := Again(g, rows);
    RunSound(g, lines);
    RunLockstep(g, g2, lines);
    assert Paired(g, g2, rows[i], Run(g2, START, lines).value.rows[i]);
    var code, temp :| SameBlock(g, g2, rows[i], Run(g2, START, lines).value.rows[i], code, temp);
    SameRowAgain(g, rows, i, code, temp);
  }

  // ---- the file of unsaved errors

  /** The first line of the file, split at its commas. */
  const COLUMNS := ["Error Code", " Call Sites to Dropping Function", " Type", " Validity", " FP Type",
                    " Dropping Function", " Definition of Dropping Function", " SHA", " Examiner", " Date",
                    " Notes", ""]

  /** The file of unsaved errors has a line of column names, and a running number in front of each row. */
  function Numbered(numbers: seq<string>, rows: seq<Row>): (w: seq<seq<string>>)
    requires |numbers| == |rows|
    ensures Wide(w)
  {
    [COLUMNS] + seq(|rows|, i requires 0 <= i < |rows| => [numbers[i]] + FieldsOf(rows[i]))
  }

  lemma KindsDiffer(k: ErrorType)
    ensures KindName(k) != "VALID"
  {
    assert "VALID"[0] == 'V';
    assert |KindName(k)| > 0 && KindName(k)[0] != 'V';
  }

  lemma ColumnsDiffer()
    ensures COLUMNS[3] != "VALID"
  {
    assert COLUMNS[3][0] == ' ' && "VALID"[0] == 'V';
  }

  /** What a number in front moves: the error code is read as the file, the type as the validity. */
  lemma NumberedFields(numbers: seq<string>, rows: seq<Row>, i: nat)
    requires |numbers| == |rows| && i < |Numbered(numbers, rows)|
    ensures i == 0 ==> Numbered(numbers, rows)[i] == COLUMNS
    ensures i > 0 ==> Numbered(numbers, rows)[i][1] == FieldsOf(rows[i - 1])[0]
    ensures i > 0 ==> Numbered(numbers, rows)[i][3] == KindName(rows[i - 1].kind)
  {
  }

  /** Read back as it was written, no row makes a function known valid: the types stand where validities are read. */
  lemma NumberedKnowsNothing(numbers: seq<string>, rows: seq<Row>)
    requires |numbers| == |rows|
    ensures ValidOf(Numbered(numbers, rows)) == {}
  {
    var ns := Numbered(numbers, rows);
    forall f ensures f !in ValidOf(ns) {
      ValidMeaning(ns, f);
      if i :| 0 <= i < |ns| && MarksValid(ns[i], f) {
        NumberedFields(numbers, rows, i);
        ColumnsDiffer();
        if i > 0 { KindsDiffer(rows[i - 1].kind); }
      }
    }
  }

  /** The entries are filed under the error codes, and under the name of a column. */
  ghost predicate FiledAs(rows: seq<Row>, f: string) {
    f == COLUMNS[1] || exists i :: 0 <= i < |rows| && FieldsOf(rows[i])[0] == f
  }

  lemma {:induction false} EntryKey(rows: seq<seq<string>>, f: string)
    requires Wide(rows)
    ensures f in EntriesOf(rows) <==> exists i :: 0 <= i < |rows| && rows[i][1] == f
    decreases |rows|
  {
    if rows != [] {
      var init, last := rows[..|rows| - 1], |rows| - 1;
      EntryKey(init, f);
      if i :| 0 <= i < |init| && init[i][1] == f {
        assert rows[i][1] == f;
      }
      if i :| 0 <= i < |rows| && rows[i][1] == f && i != last {
        assert init[i][1] == f;
      }
    }
  }

  lemma NumberedKeys(numbers: seq<string>, rows: seq<Row>, f: string)
    requires |numbers| == |rows|
    ensures f in EntriesOf(Numbered(numbers, rows)) <==> FiledAs(rows, f)
  {
    var ns := Numbered(numbers, rows);
    EntryKey(ns, f);
    if i :| 0 <= i < |ns| && ns[i][1] == f {
      NumberedFields(numbers, rows, i);
    }
    if FiledAs(rows, f) {
      if f == COLUMNS[1] {
        NumberedFields(numbers, rows, 0);
        assert ns[0][1] == f;
      } else {
        var i :| 0 <= i < |rows| && FieldsOf(rows[i])[0] == f;
        NumberedFields(numbers, rows, i + 1);
        assert ns[i + 1][1] == f;
      }
    }
  }

  /** The same run with the file of unsaved errors as its old csv. */
  function AgainNumbered(g: Given, numbers: seq<string>, rows: seq<Row>): Given
    requires |numbers| == |rows|
  {
    g.(csv := Some(Old(EntriesOf(Numbered(numbers, rows)), ValidOf(Numbered(numbers, rows)))))
  }

  /** A block whose file and line is not one of the error codes gets the row it has without any old csv. */
  lemma NumberedRow(g: Given, numbers: seq<string>, rows: seq<Row>, code: Option<string>, temp: seq<string>)
    requires |numbers| == |rows| && |temp| > 1 && !FiledAs(rows, g.path(temp[0]))
    ensures RowOf(AgainNumbered(g, numbers, rows), code, temp) == RowOf(g.(csv := None), code, temp)
    ensures RowOf(AgainNumbered(g, numbers, rows), code, temp).validity == ""
  {
    NumberedKnowsNothing(numbers, rows);
    NumberedKeys(numbers, rows, g.path(temp[0]));
  }

  /** Parsing a report again with the file of unsaved errors it wrote loses every judgement: apart from blocks whose
      file and line is one of the error codes, each row is the one of a run without an old csv. */
  lemma RunNumbered(g: Given, numbers: seq<string>, rows: seq<Row>, lines: seq<string>, i: nat)
    requires |numbers| == |rows| && Run(g, START, lines).Some?
    requires i < |Run(g, START, lines).value.rows| && !FiledAs(rows, Run(g, START, lines).value.rows[i].file)
    ensures var again, bare := Run(AgainNumbered(g, numbers, rows), START, lines), Run(g.(csv := None), START, lines);
            && again.Some? && bare.Some? && |again.value.rows| == |bare.value.rows| == |Run(g, START, lines).value.rows|
            && again.value.rows[i] == bare.value.rows[i] && again.value.rows[i].validity == ""
  {
    var g2, g3 := AgainNumbered(g, numbers, rows), g.(csv := None);
    RunLockstep(g, g2, lines);
    RunLockstep(g2, g3, lines);
    var a, b, c := Run(g, START, lines).value.rows, Run(g2, START, lines).value.rows, Run(g3, START, lines).value.rows;
    assert Paired(g, g2, a[i], b[i]) && Paired(g2, g3, b[i], c[i]);
    var code, temp :| SameBlock(g2, g3, b[i], c[i], code, temp);
    PairedFile(g, g2, a[i], b[i]);
    NumberedRow(g, numbers, rows, code, temp);
  }

  lemma PairedFile(g: Given, g2: Given, a: Row, b: Row)
    requires Paired(g, g2, a, b) && g2.path == g.path
    ensures a.file == b.file
  {
    var code, temp :| SameBlock(g, g2, a, b, code, temp);
    RowFields(g, code, temp);
    RowFields(g2, code, temp);
  }
}
