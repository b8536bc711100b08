/** Path.cpp: how the analysis prints a report, backward by default or forward, and what the parser makes of it. */
module ReportPrinted {
  import opened Options
  import opened Text
  import opened Report
  import opened ReportBlocks
  import opened ReportText

  /** What the analysis prints over a report and under it. */
  const TITLE := "Error codes: "
  const RULE := "===="

  /** They are what the parser looks for. */
  lemma SameMarks()
    ensures TITLE == HEADER && RULE == BAR
  {
  }

  /** A message object and the text it formats to. */
  datatype Msg = Msg(id: nat, text: string)

  /** The error codes the front message asks to be printed, if it does, and the two lists after filtering. */
  datatype Path = Path(codes: Option<string>, path: seq<Msg>, slice: seq<Msg>)

  /** What is written for each message, in order. */
  function Written(msgs: seq<Msg>, form: Msg -> string): seq<string> {
    seq(|msgs|, i requires 0 <= i < |msgs| => form(msgs[i]))
  }

  function Bare(): Msg -> string { (m: Msg) => m.text }

  function Ended(): Msg -> string { (m: Msg) => m.text + "\n" }

  /** An empty text gets no line. */
  function LineOf(text: string): string { if text == "" then "" else text + "\n" }

  function EndedUnlessEmpty(): Msg -> string { (m: Msg) => LineOf(m.text) }

  function EndedUnless(last: Msg): Msg -> string { (m: Msg) => if m.id != last.id then m.text + "\n" else m.text }

  function Reversed(msgs: seq<Msg>): seq<Msg> { seq(|msgs|, i requires 0 <= i < |msgs| => msgs[|msgs| - 1 - i]) }

  function PathText(msgs: seq<Msg>, forward: bool): string {
    if forward then Join(Written(Reversed(msgs), Bare())) else Join(Written(msgs, Ended()))
  }

  function SliceText(msgs: seq<Msg>, forward: bool): string {
    if forward then Join(Written(Reversed(msgs), EndedUnlessEmpty()))
    else if msgs == [] then ""
    else Join(Written(msgs, EndedUnless(msgs[|msgs| - 1])))
  }

  function HeaderText(codes: Option<string>): string {
    match codes case None => "" case Some(c) => TITLE + c + "\n" + "\n"
  }

  function PrintedText(p: Path, forward: bool): string {
    HeaderText(p.codes) + PathText(p.path, forward) + "\n" + SliceText(p.slice, forward) + "\n" + (RULE + "\n")
  }

  // ---- the printing loops

  /** What stands in the output after the first i messages of a list. */
  function Upto(out: string, msgs: seq<Msg>, form: Msg -> string, i: nat): string
    requires i <= |msgs|
  {
    if i == 0 then out else Upto(out, msgs, form, i - 1) + form(msgs[i - 1])
  }

  lemma UptoNext(out: string, msgs: seq<Msg>, form: Msg -> string, i: nat)
    requires i < |msgs|
    ensures Upto(out, msgs, form, i + 1) == Upto(out, msgs, form, i) + form(msgs[i])
  {
  }

  lemma {:induction false} UptoJoins(out: string, msgs: seq<Msg>, form: Msg -> string, i: nat)
    requires i <= |msgs|
    ensures Upto(out, msgs, form, i) == out + Join(Written(msgs, form)[..i])
  {
    var w := Written(msgs, form);
    if i > 0 {
      UptoJoins(out, msgs, form, i - 1);
      assert w[..i][..i - 1] == w[..i - 1] && w[..i][i - 1] == form(msgs[i - 1]);
      Regroup(out, Join(w[..i - 1]), form(msgs[i - 1]));
    }
  }

  lemma UptoEnds(out: string, msgs: seq<Msg>, form: Msg -> string)
    ensures Upto(out, msgs, form, |msgs|) == out + Join(Written(msgs, form))
  {
    UptoJoins(out, msgs, form, |msgs|);
    assert Written(msgs, form)[..|msgs|] == Written(msgs, form);
  }

  lemma NothingAdded(r: string, text: string)
    requires text == ""
    ensures r + text == r
  {
  }

  lemma BareNext(out: string, msgs: seq<Msg>, i: nat, r: string)
    requires i < |msgs| && r == Upto(out, msgs, Bare(), i)
    ensures Upto(out, msgs, Bare(), i + 1) == if msgs[i].text == "" then r else r + msgs[i].text
  {
    UptoNext(out, msgs, Bare(), i);
    if msgs[i].text == "" { NothingAdded(r, msgs[i].text); }
  }

  lemma EndedNext(out: string, msgs: seq<Msg>, i: nat, r: string)
    requires i < |msgs| && r == Upto(out, msgs, Ended(), i)
    ensures Upto(out, msgs, Ended(), i + 1) == (if msgs[i].text == "" then r else r + msgs[i].text) + "\n"
  {
    UptoNext(out, msgs, Ended(), i);
    Regroup(r, msgs[i].text, "\n");
    if msgs[i].text == "" { NothingAdded(r, msgs[i].text); }
  }

  lemma EndedUnlessEmptyNext(out: string, msgs: seq<Msg>, i: nat, r: string)
    requires i < |msgs| && r == Upto(out, msgs, EndedUnlessEmpty(), i)
    ensures Upto(out, msgs, EndedUnlessEmpty(), i + 1) == if msgs[i].text == "" then r else r + msgs[i].text + "\n"
  {
    UptoNext(out, msgs, EndedUnlessEmpty(), i);
    LineAdded(r, msgs[i].text);
  }

  lemma LineAdded(r: string, text: string)
    ensures r + LineOf(text) == if text == "" then r else r + text + "\n"
  {
    Regroup(r, text, "\n");
    NothingAdded(r, "");
  }

  lemma EndedUnlessNext(out: string, msgs: seq<Msg>, last: Msg, i: nat, r: string)
    requires i < |msgs| && r == Upto(out, msgs, EndedUnless(last), i)
    ensures Upto(out, msgs, EndedUnless(last), i + 1) ==
      if msgs[i].id != last.id then r + msgs[i].text + "\n" else r + msgs[i].text
  {
    UptoNext(out, msgs, EndedUnless(last), i);
    Regroup(r, msgs[i].text, "\n");
  }

  /** The loop of printPath from the last message to the first. */
  method PathForward(out: string, msgs: seq<Msg>) returns (r: string)
    ensures r == Upto(out, Reversed(msgs), Bare(), |msgs|)
  {
    r := out;
    ghost var rev := Reversed(msgs);
    ghost var done: nat := 0;
    var i := |msgs|;
    while i > 0
      invariant 0 <= i <= |msgs| && done == |msgs| - i && r == Upto(out, rev, Bare(), done)
    {
      assert rev[done] == msgs[i - 1];
      BareNext(out, rev, done, r);
      i, done := i - 1, done + 1;
      if msgs[i].text != "" {
        r := r + msgs[i].text;
      }
    }
  }

  /** The one from the first to the last. */
  method PathBackward(out: string, msgs: seq<Msg>) returns (r: string)
    ensures r == Upto(out, msgs, Ended(), |msgs|)
  {
    r := out;
    for i := 0 to |msgs|
      invariant r == Upto(out, msgs, Ended(), i)
    {
      EndedNext(out, msgs, i, r);
      if msgs[i].text != "" {
        r := r + msgs[i].text;
      }
      r := r + "\n";
    }
  }

  method PrintPath(out: string, msgs: seq<Msg>, forward: bool) returns (r: string)
    ensures r == out + PathText(msgs, forward)
  {
    if forward {
      r := PathForward(out, msgs);
      UptoEnds(out, Reversed(msgs), Bare());
    } else {
      r := PathBackward(out, msgs);
      UptoEnds(out, msgs, Ended());
    }
  }

  /** The loop of printSlice from the last message to the first. */
  method SliceForward(out: string, msgs: seq<Msg>) returns (r: string)
    ensures r == Upto(out, Reversed(msgs), EndedUnlessEmpty(), |msgs|)
  {
    r := out;
    ghost var rev := Reversed(msgs);
    ghost var done: nat := 0;
    var i := |msgs|;
    while i > 0
      invariant 0 <= i <= |msgs| && done == |msgs| - i && r == Upto(out, rev, EndedUnlessEmpty(), done)
    {
      assert rev[done] == msgs[i - 1];
      EndedUnlessEmptyNext(out, rev, done, r);
      i, done := i - 1, done + 1;
      if msgs[i].text != "" {
        r := r + msgs[i].text + "\n";
      }
    }
  }

  /** The one from the first to the last. */
  method SliceBackward(out: string, msgs: seq<Msg>, last: Msg) returns (r: string)
    ensures r == Upto(out, msgs, EndedUnless(last), |msgs|)
  {
    r := out;
    for i := 0 to |msgs|
      invariant r == Upto(out, msgs, EndedUnless(last), i)
    {
      EndedUnlessNext(out, msgs, last, i, r);
      r := r + msgs[i].text;
      if msgs[i].id != last.id {
        r := r + "\n";
      }
    }
  }

  method PrintSlice(out: string, msgs: seq<Msg>, forward: bool) returns (r: string)
    ensures r == out + SliceText(msgs, forward)
  {
    if forward {
      r := SliceForward(out, msgs);
      UptoEnds(out, Reversed(msgs), EndedUnlessEmpty());
    } else if msgs == [] {
      r := out;
    } else {
      r := SliceBackward(out, msgs, msgs[|msgs| - 1]);
      UptoEnds(out, msgs, EndedUnless(msgs[|msgs| - 1]));
    }
  }

  lemma GroupFive(out: string, a: string, b: string, c: string, d: string, e: string)
    ensures out + a + b + c + d + e == out + (a + b + c + d + e)
  {
    Regroup(out, a, b);
    Regroup(out, a + b, c);
    Regroup(out, a + b + c, d);
    Regroup(out, a + b + c + d, e);
  }

  lemma HeaderGroups(out: string, codes: string)
    ensures out + TITLE + codes + "\n" + "\n" == out + HeaderText(Some(codes))
  {
    GroupFive(out, TITLE, codes, "\n", "\n", "");
  }

  lemma ReportGroups(out: string, p: Path, forward: bool)
    ensures out + HeaderText(p.codes) + PathText(p.path, forward) + "\n" + SliceText(p.slice, forward) + "\n"
          + (RULE + "\n") == out + PrintedText(p, forward)
  {
    GroupFive(out, HeaderText(p.codes), PathText(p.path, forward), "\n", SliceText(p.slice, forward), "\n");
    var text := HeaderText(p.codes) + PathText(p.path, forward) + "\n" + SliceText(p.slice, forward) + "\n";
    Regroup(out, text, RULE + "\n");
  }

  /** printReport for the standard formatter with the condensed path. */
  method PrintReport(out: string, p: Path, forward: bool) returns (r: string)
    ensures r == out + PrintedText(p, forward)
  {
    r := out;
    if p.codes.Some? {
      r := r + TITLE;
      r := r + p.codes.value;
      r := r + "\n";
      r := r + "\n";
      HeaderGroups(out, p.codes.value);
    }
    r := PrintPath(r, p.path, forward);
    r := r + "\n";
    r := PrintSlice(r, p.slice, forward);
    r := r + "\n";
    r := r + (RULE + "\n");
    ReportGroups(out, p, forward);
  }

  // ---- the lines of a printed report

  /** Header, empty line, path, empty line, condensed path, bar. */
  function ReportLines(codes: string, path: seq<string>, slice: seq<string>): seq<string> {
    ([TITLE + codes, ""] + path + [""]) + (slice + [RULE])
  }

  function Texts(msgs: seq<Msg>): seq<string> { Written(msgs, Bare()) }

  lemma TerminatedConcat(a: seq<string>, b: seq<string>)
    ensures Join(Terminated(a + b)) == Join(Terminated(a)) + Join(Terminated(b))
  {
    assert Terminated(a + b) == Terminated(a) + Terminated(b);
    JoinConcat(Terminated(a), Terminated(b));
  }

  lemma TerminatedOne(l: string)
    ensures Join(Terminated([l])) == l + "\n"
  {
    var t := Terminated([l]);
    assert t[..0] == [] && t[0] == l + "\n";
    assert "" + (l + "\n") == l + "\n";
  }

  /** The text of the lines of a report. */
  lemma LinesText(codes: string, path: seq<string>, slice: seq<string>)
    ensures Join(Terminated(ReportLines(codes, path, slice)))
         == HeaderText(Some(codes)) + Join(Terminated(path)) + "\n" + Join(Terminated(slice)) + (RULE + "\n")
  {
    var head := TITLE + codes;
    TerminatedOne(head);
    TerminatedOne("");
    TerminatedOne(RULE);
    assert [head] + [""] == [head, ""];
    TerminatedConcat([head], [""]);
    TerminatedConcat([head, ""], path);
    TerminatedConcat([head, ""] + path, [""]);
    TerminatedConcat(slice, [RULE]);
    TerminatedConcat([head, ""] + path + [""], slice + [RULE]);
    Regroup(head + "\n" + "\n" + Join(Terminated(path)) + "\n", Join(Terminated(slice)), RULE + "\n");
    assert "" + "\n" == "\n";
  }

  /** The last message of a list is not in it before. */
  predicate LastOnce(msgs: seq<Msg>) {
    forall i :: 0 <= i < |msgs| - 1 ==> msgs[i].id != msgs[|msgs| - 1].id
  }

  lemma PathLinesBackward(msgs: seq<Msg>)
    ensures PathText(msgs, false) == Join(Terminated(Texts(msgs)))
  {
    assert Written(msgs, Ended()) == Terminated(Texts(msgs));
  }

  lemma SliceLinesBackward(msgs: seq<Msg>)
    requires msgs != [] && LastOnce(msgs)
    ensures SliceText(msgs, false) + "\n" == Join(Terminated(Texts(msgs)))
  {
    var n := |msgs| - 1;
    var w, t := Written(msgs, EndedUnless(msgs[n])), Terminated(Texts(msgs));
    assert w[..n] == t[..n] && w[n] == msgs[n].text && t[n] == w[n] + "\n";
    Regroup(Join(w[..n]), w[n], "\n");
  }

  /** In the default direction a report is its lines. */
  lemma BackwardLines(p: Path)
    requires p.codes.Some? && p.slice != [] && LastOnce(p.slice)
    ensures PrintedText(p, false) == Join(Terminated(ReportLines(p.codes.value, Texts(p.path), Texts(p.slice))))
  {
    PathLinesBackward(p.path);
    SliceLinesBackward(p.slice);
    LinesText(p.codes.value, Texts(p.path), Texts(p.slice));
    Regroup(HeaderText(p.codes) + PathText(p.path, false) + "\n", SliceText(p.slice, false), "\n");
  }

  /** The lines of the path in the other direction: the whole path on one line, and the condensed path with no empty
      line before it. */
  function ForwardPath(p: Path): seq<string> { [Join(Texts(Reversed(p.path)))] + Texts(Reversed(p.slice)) }

  lemma SliceLinesForward(msgs: seq<Msg>)
    requires forall i :: 0 <= i < |msgs| ==> msgs[i].text != ""
    ensures SliceText(msgs, true) == Join(Terminated(Texts(Reversed(msgs))))
  {
    assert Written(Reversed(msgs), EndedUnlessEmpty()) == Terminated(Texts(Reversed(msgs)));
  }

  lemma ForwardLines(p: Path)
    requires p.codes.Some? && forall i :: 0 <= i < |p.slice| ==> p.slice[i].text != ""
    ensures PrintedText(p, true) == Join(Terminated(ReportLines(p.codes.value, ForwardPath(p), [])))
  {
    var whole, slice := Join(Texts(Reversed(p.path))), Texts(Reversed(p.slice));
    SliceLinesForward(p.slice);
    TerminatedOne(whole);
    TerminatedConcat([whole], slice);
    LinesText(p.codes.value, ForwardPath(p), []);
    ForwardGroups(HeaderText(p.codes), whole, Join(Terminated(slice)), RULE + "\n");
    assert Terminated([]) == [];
  }

  lemma ForwardGroups(head: string, whole: string, slice: string, bar: string)
    ensures head + ((whole + "\n") + slice) + "\n" + "" + bar == head + whole + "\n" + slice + "\n" + bar
  {
    assert head + ((whole + "\n") + slice) == head + whole + "\n" + slice;
  }

  lemma {:induction false} JoinHead(w: seq<string>)
    requires w != []
    ensures Join(w) == w[0] + Join(w[1..])
  {
    JoinConcat([w[0]], w[1..]);
    JoinOne(w[0]);
    assert w == [w[0]] + w[1..];
  }

  /** Forward means from the last message to the first: what is printed of a later message comes first. */
  lemma ForwardOrder(msgs: seq<Msg>, m: Msg)
    ensures PathText(msgs + [m], true) == m.text + PathText(msgs, true)
    ensures SliceText(msgs + [m], true) == (if m.text == "" then "" else m.text + "\n") + SliceText(msgs, true)
  {
    var rev, before := Reversed(msgs + [m]), Reversed(msgs);
    assert rev == [m] + before;
    assert Written(rev, Bare())[1..] == Written(before, Bare());
    JoinHead(Written(rev, Bare()));
    assert Written(rev, EndedUnlessEmpty())[1..] == Written(before, EndedUnlessEmpty());
    JoinHead(Written(rev, EndedUnlessEmpty()));
  }

  // ---- the block the parser sees

  lemma StripHead(h: string, s: string)
    requires h != "" && !IsSpace(h[0]) && !Blank(s)
    ensures Strip(h + s) == h + RightStripped(s)
  {
    EdgesMeaning(h);
    StripAround(h, "", s);
    assert h + "" + s == h + s && h[0..] + "" == h;
  }

  lemma StripWhole(s: string)
    requires Trimmed(s)
    ensures Strip(s) == s
  {
    EdgesMeaning(s);
    if s != "" {
      assert Lead(s) == 0 && End(s) == |s|;
    }
  }

  lemma StripAllConcat(a: seq<string>, b: seq<string>)
    ensures StripAll(a + b) == StripAll(a) + StripAll(b)
  {
  }

  /** Stripped, the lines of a report are those of a block. */
  lemma LinesBlock(codes: string, path: seq<string>, slice: seq<string>)
    requires !Blank(codes)
    ensures StripAll(ReportLines(codes, path, slice)) == Print(BlockOf(codes, path, slice))
  {
    SameMarks();
    var head := TITLE + codes;
    assert TITLE[0] == 'E' && RULE[0] == RULE[|RULE| - 1] == '=';
    StripHead(TITLE, codes);
    StripWhole("");
    StripWhole(RULE);
    StripAllConcat([head, ""] + path + [""], slice + [RULE]);
    StripAllConcat([head, ""] + path, [""]);
    StripAllConcat([head, ""], path);
    StripAllConcat(slice, [RULE]);
    assert StripAll([head, ""]) == [TITLE + RightStripped(codes), ""];
    assert StripAll([""]) == [""] && StripAll([RULE]) == [RULE];
    assert StripAll(slice) + Blanks(0) == StripAll(slice);
  }

  function BlockOf(codes: string, path: seq<string>, slice: seq<string>): Block {
    Block(RightStripped(codes), StripAll(path), StripAll(slice), 0, [])
  }

  // ---- a whole run

  ghost predicate OneLiners(msgs: seq<Msg>) { forall i :: 0 <= i < |msgs| ==> NoNewline(msgs[i].text) }

  /** A report of one of the header kinds whose messages format to ordinary lines. */
  ghost predicate Ordinary(p: Path) {
    && p.codes.Some? && NoNewline(p.codes.value) && !Blank(p.codes.value)
    && OneLiners(p.path) && OneLiners(p.slice)
    && p.slice != [] && LastOnce(p.slice)
    && PathLines(StripAll(Texts(p.path))) && PlainLines(StripAll(Texts(p.slice)))
  }

  /** What a run of the analysis prints. */
  function Output(ps: seq<Path>, forward: bool): string {
    if ps == [] then "" else Output(ps[..|ps| - 1], forward) + PrintedText(ps[|ps| - 1], forward)
  }

  function CodesOf(p: Path): string { match p.codes case None => "" case Some(c) => c }

  function LinesOf(p: Path): seq<string> { ReportLines(CodesOf(p), Texts(p.path), Texts(p.slice)) }

  function BlockFor(p: Path): Block { BlockOf(CodesOf(p), Texts(p.path), Texts(p.slice)) }

  function AllLines(ps: seq<Path>): seq<string> {
    if ps == [] then [] else AllLines(ps[..|ps| - 1]) + LinesOf(ps[|ps| - 1])
  }

  function Blocks(ps: seq<Path>): seq<Block> { seq(|ps|, i requires 0 <= i < |ps| => BlockFor(ps[i])) }

  lemma RightStrippedFull(s: string)
    requires !Blank(s)
    ensures RightStripped(s) != ""
  {
    EdgesMeaning(s);
  }

  lemma OrdinaryBlock(p: Path)
    requires Ordinary(p)
    ensures WellFormed(BlockFor(p)) && StripAll(LinesOf(p)) == Print(BlockFor(p))
  {
    RightStrippedFull(p.codes.value);
    LinesBlock(p.codes.value, Texts(p.path), Texts(p.slice));
  }

  lemma BlocksWellFormed(ps: seq<Path>)
    requires forall i :: 0 <= i < |ps| ==> Ordinary(ps[i])
    ensures AllWellFormed(Blocks(ps))
  {
    forall i | 0 <= i < |ps| ensures WellFormed(Blocks(ps)[i]) {
      OrdinaryBlock(ps[i]);
    }
  }

  lemma PrintNext(ps: seq<Path>)
    requires ps != []
    ensures PrintAll(Blocks(ps)) == PrintAll(Blocks(ps[..|ps| - 1])) + Print(BlockFor(ps[|ps| - 1]))
  {
    assert Blocks(ps)[..|ps| - 1] == Blocks(ps[..|ps| - 1]);
  }

  lemma {:induction false} AllBlocks(ps: seq<Path>)
    requires forall i :: 0 <= i < |ps| ==> Ordinary(ps[i])
    ensures StripAll(AllLines(ps)) == PrintAll(Blocks(ps))
    decreases |ps|
  {
    if ps == [] {
    } else {
      AllBlocks(ps[..|ps| - 1]);
      PrintNext(ps);
      StripAllConcat(AllLines(ps[..|ps| - 1]), LinesOf(ps[|ps| - 1]));
      OrdinaryBlock(ps[|ps| - 1]);
    }
  }

  lemma {:induction false} OutputLines(ps: seq<Path>)
    requires forall i :: 0 <= i < |ps| ==> Ordinary(ps[i])
    ensures Output(ps, false) == Join(Terminated(AllLines(ps)))
    decreases |ps|
  {
    if ps == [] {
      assert Terminated(AllLines([])) == [];
    } else {
      OutputLines(ps[..|ps| - 1]);
      BackwardLines(ps[|ps| - 1]);
      TerminatedConcat(AllLines(ps[..|ps| - 1]), LinesOf(ps[|ps| - 1]));
    }
  }

  lemma HeadNoNewline(codes: string)
    requires NoNewline(codes)
    ensures NoNewline(TITLE + codes) && NoNewline(RULE)
  {
    assert NoNewline(TITLE);
  }

  lemma LinesNoNewline(codes: string, path: seq<string>, slice: seq<string>)
    requires NoNewline(codes)
    requires forall i :: 0 <= i < |path| ==> NoNewline(path[i])
    requires forall i :: 0 <= i < |slice| ==> NoNewline(slice[i])
    ensures forall l :: l in ReportLines(codes, path, slice) ==> NoNewline(l)
  {
    HeadNoNewline(codes);
  }

  lemma {:induction false} AllNoNewline(ps: seq<Path>)
    requires forall i :: 0 <= i < |ps| ==> Ordinary(ps[i])
    ensures forall l :: l in AllLines(ps) ==> NoNewline(l)
    decreases |ps|
  {
    if ps != [] {
      var p := ps[|ps| - 1];
      AllNoNewline(ps[..|ps| - 1]);
      LinesNoNewline(p.codes.value, Texts(p.path), Texts(p.slice));
    }
  }

  /** What the analysis prints in its default direction is parsed to one row per report, in order, with the report's
      codes and the fields of the first, second and last message of its condensed path; the parser fails exactly
      when some report has a single condensed message. */
  lemma BackwardParses(g: Given, ps: seq<Path>)
    requires forall i :: 0 <= i < |ps| ==> Ordinary(ps[i])
    ensures Parsed(g, Blocks(ps), Run(g, START, StripAll(ReadLines(Output(ps, false)))))
  {
    BlocksWellFormed(ps);
    AllBlocks(ps);
    OutputLines(ps);
    AllNoNewline(ps);
    ReportRoundTrip(g, Blocks(ps), AllLines(ps));
  }

  // ---- the other direction

  /** Reading complete lines and any text after them. */
  lemma ReadFirst(ts: seq<string>, rest: string)
    requires forall i :: 0 <= i < |ts| ==> IsLine(ts[i])
    ensures ReadLines(Join(ts) + rest) == ts + ReadLines(rest)
  {
    var more := ReadLines(rest);
    ReadLinesShape(rest);
    SplitText(rest);
    JoinRead(rest);
    JoinConcat(ts, more);
    assert FileLines(ts + more);
    ReadJoin(ts + more);
  }

  /** Printed forward, the first report of the header kinds already ends the parser with a NameError, whatever comes
      after it: the empty line that should open its condensed path comes just before the bar. */
  lemma ForwardFails(g: Given, p: Path, rest: string)
    requires p.codes.Some? && NoNewline(p.codes.value) && !Blank(p.codes.value)
    requires forall l :: l in ForwardPath(p) ==> NoNewline(l)
    requires PathLines(StripAll(ForwardPath(p)))
    ensures Run(g, START, StripAll(ReadLines(PrintedText(p, true) + rest))) == None
  {
    var lines := ReportLines(p.codes.value, ForwardPath(p), []);
    SliceSpoken(p);
    ForwardLines(p);
    LinesNoNewline(p.codes.value, ForwardPath(p), []);
    TerminatedAreLines(lines);
    ReadFirst(Terminated(lines), rest);
    StripAllConcat(Terminated(lines), ReadLines(rest));
    StripAllTerminated(lines);
    LinesBlock(p.codes.value, ForwardPath(p), []);
    RightStrippedFull(p.codes.value);
    RunBlock(g, START, BlockOf(p.codes.value, ForwardPath(p), []));
    RunConcat(g, START, StripAll(lines), StripAll(ReadLines(rest)));
  }

  lemma TerminatedAreLines(lines: seq<string>)
    requires forall l :: l in lines ==> NoNewline(l)
    ensures forall i :: 0 <= i < |Terminated(lines)| ==> IsLine(Terminated(lines)[i])
  {
    forall i | 0 <= i < |lines| ensures IsLine(Terminated(lines)[i]) {
      assert lines[i] in lines && Terminated(lines)[i] == lines[i] + "\n";
    }
  }

  lemma StripAllTerminated(lines: seq<string>)
    ensures StripAll(Terminated(lines)) == StripAll(lines)
  {
    forall i | 0 <= i < |lines| ensures Strip(Terminated(lines)[i]) == Strip(lines[i]) {
      StripTerminated(lines[i]);
    }
  }

  /** A message whose line is not empty once stripped has a text. */
  lemma SliceSpoken(p: Path)
    requires PathLines(StripAll(ForwardPath(p)))
    ensures forall i :: 0 <= i < |p.slice| ==> p.slice[i].text != ""
  {
    forall i | 0 <= i < |p.slice| ensures p.slice[i].text != "" {
      var k := |p.slice| - i;
      assert ForwardPath(p)[k] == p.slice[i].text;
      assert StripAll(ForwardPath(p))[k] == Strip(p.slice[i].text);
      EmptyLine();
      StripWhole("");
    }
  }
}
