/** What every run of the report loop keeps. */
module ReportRuns {
  import opened Options
  import opened Report

  /** The codes of the headers so far. */
  function HeaderCodes(lines: seq<string>): seq<string> {
    if lines == [] then []
    else
      var before := HeaderCodes(lines[..|lines| - 1]);
      match Classify(lines[|lines| - 1])
      case Header(code) => before + [code]
      case _ => before
  }

  /** a picks codes out of b, in order and each at most once. */
  ghost predicate Picks(a: seq<Row>, b: seq<string>)
    decreases |a|
  {
    a == [] || exists j :: 0 <= j < |b| && PicksLast(a, b, j)
  }

  ghost predicate PicksLast(a: seq<Row>, b: seq<string>, j: nat)
    requires a != [] && j < |b|
    decreases |a|, 0
  {
    a[|a| - 1].code == Some(b[j]) && Picks(a[..|a| - 1], b[..j])
  }

  lemma PicksMore(a: seq<Row>, b: seq<string>, h: string)
    requires Picks(a, b)
    ensures Picks(a, b + [h])
  {
    if a != [] {
      var j :| 0 <= j < |b| && PicksLast(a, b, j);
      assert (b + [h])[..j] == b[..j];
      assert PicksLast(a, b + [h], j);
    }
  }

  lemma PicksNext(a: seq<Row>, b: seq<string>, r: Row, h: string)
    requires Picks(a, b) && r.code == Some(h)
    ensures Picks(a + [r], b + [h])
  {
    assert (a + [r])[..|a|] == a && (b + [h])[..|b|] == b;
    assert PicksLast(a + [r], b + [h], |b|);
  }

  lemma {:induction false} PicksFewer(a: seq<Row>, b: seq<string>)
    requires Picks(a, b)
    ensures |a| <= |b|
    decreases |a|
  {
    if a != [] {
      var j :| 0 <= j < |b| && PicksLast(a, b, j);
      PicksFewer(a[..|a| - 1], b[..j]);
    }
  }

  /** How many rows satisfy p. */
  function CountIf(p: Row -> bool, rows: seq<Row>): nat {
    if rows == [] then 0 else CountIf(p, rows[..|rows| - 1]) + if p(rows[|rows| - 1]) then 1 else 0
  }

  lemma CountNext(p: Row -> bool, rows: seq<Row>, r: Row)
    ensures CountIf(p, rows + [r]) == CountIf(p, rows) + if p(r) then 1 else 0
  {
    assert (rows + [r])[..|rows|] == rows;
  }

  /** Rows about unsaved errors. */
  function UnsavedRow(): Row -> bool { (r: Row) => r.kind == Unsaved }

  /** Those the old csv lists, under the row's file and line and with its dropping function. */
  function ListedRow(csv: Old): Row -> bool {
    (r: Row) => r.kind == Unsaved && r.file in csv.entries && csv.entries[r.file].dropping == r.dropping
  }

  /** Those it does not list. */
  function NewRow(csv: Old): Row -> bool {
    (r: Row) => r.kind == Unsaved && !(r.file in csv.entries && csv.entries[r.file].dropping == r.dropping)
  }

  /** Those about a function some row of the old csv marks VALID, with no validity of their own there. */
  function MarkedRow(csv: Old): Row -> bool {
    (r: Row) => r.kind == Unsaved && r.dropping in csv.valid
      && (r.file in csv.entries && csv.entries[r.file].dropping == r.dropping ==> csv.entries[r.file].validity == "")
  }

  lemma {:induction false} ListedAndNew(csv: Old, rows: seq<Row>)
    ensures CountIf(ListedRow(csv), rows) + CountIf(NewRow(csv), rows) == CountIf(UnsavedRow(), rows)
    ensures CountIf(MarkedRow(csv), rows) <= CountIf(UnsavedRow(), rows)
  {
    if rows != [] {
      ListedAndNew(csv, rows[..|rows| - 1]);
    }
  }

  /** A row whose dropping function is known valid says something about its validity. */
  predicate Judged(g: Given, r: Row) { KnownValid(g, r.kind, r.dropping) ==> r.validity != "" }

  /** The flags, the codes and the rows fit the headers seen. */
  ghost predicate Consistent(s: State, codes: seq<string>) {
    && (s.condensed ==> s.block)
    && (s.block <==> s.code.Some?)
    && (s.block ==> codes != [] && s.code.value == codes[|codes| - 1] && Picks(s.rows, codes[..|codes| - 1]))
    && Picks(s.rows, codes)
  }

  /** The counters count the rows: those the old csv lists, those it does not, and those marked valid because of it. */
  ghost predicate Counted(g: Given, s: State) {
    && (g.csv.None? ==> s.matched == s.missing == s.marked == 0)
    && (g.csv.Some? ==>
          && s.matched == CountIf(ListedRow(g.csv.value), s.rows)
          && s.missing == CountIf(NewRow(g.csv.value), s.rows)
          && s.marked == CountIf(MarkedRow(g.csv.value), s.rows))
    && AllJudged(g, s.rows)
  }

  lemma StartHolds(g: Given)
    ensures Consistent(START, []) && Counted(g, START)
  {
  }

  function CodesAfter(codes: seq<string>, line: Line): seq<string> {
    match line
    case Header(code) => codes + [code]
    case _ => codes
  }

  lemma HeaderConsistent(s: State, codes: seq<string>, code: string)
    requires Consistent(s, codes)
    ensures Consistent(s.(code := Some(code), block := true, temp := [], counter := 0), codes + [code])
  {
    PicksMore(s.rows, codes, code);
    assert (codes + [code])[..|codes|] == codes;
  }

  lemma EmitConsistent(g: Given, s: State, codes: seq<string>)
    requires Consistent(s, codes) && s.condensed && |s.temp| > 1
    ensures Consistent(Emit(g, s), codes)
  {
    var init, last := codes[..|codes| - 1], codes[|codes| - 1];
    PicksNext(s.rows, init, RowOf(g, s.code, s.temp), last);
    assert init + [last] == codes;
  }

  lemma StepConsistent(g: Given, s: State, codes: seq<string>, line: Line, text: string)
    requires Consistent(s, codes) && Step(g, s, line, text).Some?
    ensures Consistent(Step(g, s, line, text).value, CodesAfter(codes, line))
  {
    if line.Header? {
      HeaderConsistent(s, codes, line.code);
    } else if !(s.block && line.Empty?) && line.Bar? && s.condensed {
      EmitConsistent(g, s, codes);
    }
  }

  lemma RowFields(g: Given, code: Option<string>, temp: seq<string>)
    requires |temp| > 1
    ensures var r := RowOf(g, code, temp);
            && r.code == code && r.file == g.path(temp[0]) && r.kind == TypeOf(temp[0])
            && r.dropping == FunctionName(temp[1]) && r.source == g.path(temp[|temp| - 1]) && Judged(g, r)
  {
  }

  ghost predicate AllJudged(g: Given, rows: seq<Row>) { forall i :: 0 <= i < |rows| ==> Judged(g, rows[i]) }

  lemma JudgedNext(g: Given, rows: seq<Row>, r: Row)
    requires AllJudged(g, rows) && Judged(g, r)
    ensures AllJudged(g, rows + [r])
  {
  }

  /** What the end of a block adds to the counters. */
  lemma EmitCounts(g: Given, s: State)
    requires |s.temp| > 1
    ensures var t, r := Emit(g, s), RowOf(g, s.code, s.temp);
            && t.rows == s.rows + [r] && Judged(g, r)
            && (g.csv.None? ==> t.matched == s.matched && t.missing == s.missing && t.marked == s.marked)
            && (g.csv.Some? ==>
                  && t.matched == s.matched + (if ListedRow(g.csv.value)(r) then 1 else 0)
                  && t.missing == s.missing + (if NewRow(g.csv.value)(r) then 1 else 0)
                  && t.marked == s.marked + (if MarkedRow(g.csv.value)(r) then 1 else 0))
  {
    RowFields(g, s.code, s.temp);
  }

  lemma EmitCounted(g: Given, s: State)
    requires Counted(g, s) && |s.temp| > 1
    ensures Counted(g, Emit(g, s))
  {
    var r := RowOf(g, s.code, s.temp);
    EmitCounts(g, s);
    if g.csv.Some? {
      CountNext(ListedRow(g.csv.value), s.rows, r);
      CountNext(NewRow(g.csv.value), s.rows, r);
      CountNext(MarkedRow(g.csv.value), s.rows, r);
    }
    JudgedNext(g, s.rows, r);
  }

  lemma StepCounted(g: Given, s: State, line: Line, text: string)
    requires Counted(g, s) && Step(g, s, line, text).Some?
    ensures Counted(g, Step(g, s, line, text).value)
  {
    if !line.Header? && !(s.block && line.Empty?) && line.Bar? && s.condensed {
      EmitCounted(g, s);
    }
  }

  /** At every step of every run: condensed mode implies an open block, the codes of the rows are codes of headers, in
      order and each header at most once, and the counters agree with the rows. */
  lemma {:induction false} RunHolds(g: Given, lines: seq<string>)
    requires Run(g, START, lines).Some?
    ensures Consistent(Run(g, START, lines).value, HeaderCodes(lines))
    ensures Counted(g, Run(g, START, lines).value)
    decreases |lines|
  {
    if lines == [] {
      StartHolds(g);
    } else {
      var init, l := lines[..|lines| - 1], lines[|lines| - 1];
      RunHolds(g, init);
      StepConsistent(g, Run(g, START, init).value, HeaderCodes(init), Classify(l), l);
      StepCounted(g, Run(g, START, init).value, Classify(l), l);
    }
  }

  /** The three counters of a run count rows of its result: matched the unsaved ones the old csv lists with the same
      dropping function, missing the other unsaved ones, marked those whose validity comes from the set of valid
      functions. */
  lemma CountersExact(g: Given, lines: seq<string>)
    requires Run(g, START, lines).Some?
    ensures var s := Run(g, START, lines).value;
            if g.csv.None? then s.matched == s.missing == s.marked == 0
            else
              && s.matched == CountIf(ListedRow(g.csv.value), s.rows)
              && s.missing == CountIf(NewRow(g.csv.value), s.rows)
              && s.marked == CountIf(MarkedRow(g.csv.value), s.rows)
              && s.matched + s.missing == CountIf(UnsavedRow(), s.rows) && s.marked <= CountIf(UnsavedRow(), s.rows)
  {
    RunHolds(g, lines);
    if g.csv.Some? {
      ListedAndNew(g.csv.value, Run(g, START, lines).value.rows);
    }
  }

  lemma {:induction false} NoneListed(csv: Old, rows: seq<Row>)
    requires csv.entries == map[]
    ensures CountIf(ListedRow(csv), rows) == 0
  {
    if rows != [] {
      NoneListed(csv, rows[..|rows| - 1]);
    }
  }

  /** With an old csv without entries every unsaved error is new. */
  lemma NothingListed(g: Given, lines: seq<string>)
    requires Run(g, START, lines).Some? && g.csv.Some? && g.csv.value.entries == map[]
    ensures var s := Run(g, START, lines).value; s.matched == 0 && s.missing == CountIf(UnsavedRow(), s.rows)
  {
    CountersExact(g, lines);
    NoneListed(g.csv.value, Run(g, START, lines).value.rows);
  }

  /** A listed row takes over every judgement of its entry, except that a known valid function fills in an empty
      validity; any other row starts from the sha given, with nothing judged but that. */
  lemma RowJudgement(g: Given, code: Option<string>, temp: seq<string>)
    requires |temp| > 1
    ensures var r := RowOf(g, code, temp);
            && (g.csv.Some? && ListedRow(g.csv.value)(r) ==>
                  var e := g.csv.value.entries[r.file];
                  && (r.fpType, r.sha, r.examiner, r.date, r.notes) == (e.fpType, e.sha, e.examiner, e.date, e.notes)
                  && r.validity == if MarkedRow(g.csv.value)(r) then "VALID" else e.validity)
            && (g.csv.None? || !ListedRow(g.csv.value)(r) ==>
                  && (r.fpType, r.sha, r.examiner, r.date, r.notes) == ("", g.sha, "", "", "")
                  && r.validity == if g.csv.Some? && MarkedRow(g.csv.value)(r) then "VALID" else "")
  {
  }

  /** Rows never outnumber headers. */
  lemma RowsBelowHeaders(g: Given, lines: seq<string>)
    requires Run(g, START, lines).Some?
    ensures |Run(g, START, lines).value.rows| <= |HeaderCodes(lines)|
  {
    RunHolds(g, lines);
    PicksFewer(Run(g, START, lines).value.rows, HeaderCodes(lines));
  }

  /** The end of a block of at least two collected lines adds a row, with the code of the latest header and the
      fields of the first, second and last collected lines. */
  ghost predicate EndsBlock(g: Given, s: State, codes: seq<string>, line: Line, t: State) {
    && s.condensed && |s.temp| > 1 && line == Bar && codes != []
    && t.rows == s.rows + [RowOf(g, Some(codes[|codes| - 1]), s.temp)]
  }

  lemma StepAdds(g: Given, s: State, codes: seq<string>, line: Line, text: string)
    requires Consistent(s, codes) && Step(g, s, line, text).Some?
    ensures var t := Step(g, s, line, text).value;
            t.rows == s.rows || EndsBlock(g, s, codes, line, t)
  {
  }

  lemma RunAppend(g: Given, lines: seq<string>, l: string)
    requires Run(g, START, lines).Some?
    ensures Run(g, START, lines + [l]) == Step(g, Run(g, START, lines).value, Classify(l), l)
  {
    assert (lines + [l])[..|lines|] == lines;
  }

  /** In every run a line leaves the rows alone or ends a block. */
  lemma RowAdded(g: Given, lines: seq<string>, l: string)
    requires Run(g, START, lines).Some? && Run(g, START, lines + [l]).Some?
    ensures var s, t := Run(g, START, lines).value, Run(g, START, lines + [l]).value;
            t.rows == s.rows || EndsBlock(g, s, HeaderCodes(lines), Classify(l), t)
  {
    RunHolds(g, lines);
    RunAppend(g, lines, l);
    StepAdds(g, Run(g, START, lines).value, HeaderCodes(lines), Classify(l), l);
  }
}
