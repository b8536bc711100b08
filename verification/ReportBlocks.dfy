/** Reading back a printed report: one row per block. */
module ReportBlocks {
  import opened Options
  import opened Text
  import opened Report

  /** A block of a report: the error code, the full path, the condensed path, empty lines before the closing bar, and
      lines that belong to no block. */
  datatype Block = Block(code: string, path: seq<string>, slice: seq<string>, blanks: nat, noise: seq<string>)

  function Blanks(n: nat): seq<string> { seq(n, i => "") }

  /** The lines of a block: header, empty line, path, empty line, condensed path, bar. */
  function Print(b: Block): seq<string> {
    ([HEADER + b.code, ""] + b.path + [""]) + (b.slice + Blanks(b.blanks) + [BAR]) + b.noise
  }

  function PrintAll(blocks: seq<Block>): seq<string> {
    if blocks == [] then [] else PrintAll(blocks[..|blocks| - 1]) + Print(blocks[|blocks| - 1])
  }

  ghost predicate NoHeaders(lines: seq<string>) { forall i :: 0 <= i < |lines| ==> !Classify(lines[i]).Header? }

  ghost predicate PathLines(lines: seq<string>) {
    forall i :: 0 <= i < |lines| ==> !Classify(lines[i]).Header? && !Classify(lines[i]).Empty?
  }

  ghost predicate PlainLines(lines: seq<string>) { forall i :: 0 <= i < |lines| ==> Classify(lines[i]) == Plain }

  /** Path lines are neither headers nor empty, condensed lines hold no bar either, and no header stands outside. */
  ghost predicate WellFormed(b: Block) {
    b.code != "" && PathLines(b.path) && PlainLines(b.slice) && NoHeaders(b.noise)
  }

  // ---- running through the parts of a block

  lemma {:induction false} RunConcat(g: Given, s: State, a: seq<string>, b: seq<string>)
    ensures Run(g, s, a + b) == match Run(g, s, a) case None => None case Some(t) => Run(g, t, b)
    decreases |b|
  {
    if b == [] {
      assert a + b == a;
    } else {
      assert (a + b)[..|a + b| - 1] == a + b[..|b| - 1];
      RunConcat(g, s, a, b[..|b| - 1]);
    }
  }

  lemma RunOne(g: Given, s: State, l: string)
    ensures Run(g, s, [l]) == Step(g, s, Classify(l), l)
  {
    assert [l][..0] == [];
  }

  predicate Idle(s: State) { !s.block && !s.condensed }

  lemma {:induction false} RunNoise(g: Given, s: State, lines: seq<string>)
    requires Idle(s) && NoHeaders(lines)
    ensures Run(g, s, lines) == Some(s)
    decreases |lines|
  {
    if lines != [] {
      RunNoise(g, s, lines[..|lines| - 1]);
    }
  }

  lemma {:induction false} RunPath(g: Given, s: State, lines: seq<string>)
    requires s.block && !s.condensed && PathLines(lines)
    ensures Run(g, s, lines) == Some(s)
    decreases |lines|
  {
    if lines != [] {
      RunPath(g, s, lines[..|lines| - 1]);
    }
  }

  lemma {:induction false} RunSlice(g: Given, s: State, lines: seq<string>)
    requires s.condensed && PlainLines(lines)
    ensures Run(g, s, lines) == Some(s.(temp := s.temp + lines))
    decreases |lines|
  {
    if lines == [] {
      assert s.temp + [] == s.temp;
    } else {
      RunSlice(g, s, lines[..|lines| - 1]);
      assert s.temp + lines == s.temp + lines[..|lines| - 1] + [lines[|lines| - 1]];
    }
  }

  lemma {:induction false} RunBlanks(g: Given, s: State, n: nat)
    requires s.block && s.condensed
    ensures Run(g, s, Blanks(n)) == Some(s.(counter := s.counter + n))
    decreases n
  {
    if n > 0 {
      RunBlanks(g, s, n - 1);
      assert Blanks(n)[..n - 1] == Blanks(n - 1);
      EmptyLine();
    }
  }

  lemma EmptyLine()
    ensures Classify("") == Empty
  {
    assert |HEADER| > 0;
  }

  lemma HeaderLine(code: string)
    requires code != ""
    ensures Classify(HEADER + code) == Header(code)
  {
    assert (HEADER + code)[|HEADER|..] == code;
  }

  lemma BarLine()
    ensures Classify(BAR) == Bar
  {
    assert BAR[0] == '=' && HEADER[0] == 'E';
    ContainsSelf(BAR);
  }

  /** What the parser takes a stripped line for. */
  lemma LineMeaning(l: string)
    ensures Classify(l).Header? <==> StartsWith(l, "Error codes: ") && |l| > 13
    ensures Classify(l).Header? ==> l == "Error codes: " + Classify(l).code
    ensures Classify(l) == Empty <==> l == ""
    ensures Classify(l) == Bar <==> !Classify(l).Header? && Contains(l, "====")
  {
    assert HEADER == "Error codes: " && |HEADER| == 13;
    if Classify(l).Header? {
      assert l == HEADER + l[|HEADER|..];
    }
  }

  // ---- a whole block

  /** In the condensed part of a block. */
  function Opened(s: State, code: string): State {
    s.(code := Some(code), block := true, condensed := true, temp := [], counter := 2)
  }

  lemma RunOpening(g: Given, s: State, b: Block)
    requires Idle(s) && b.code != "" && PathLines(b.path)
    ensures Run(g, s, [HEADER + b.code, ""] + b.path + [""]) == Some(Opened(s, b.code))
  {
    var s1 := s.(code := Some(b.code), block := true, temp := [], counter := 0);
    var s2 := s1.(counter := 1);
    HeaderLine(b.code);
    EmptyLine();
    RunOne(g, s, HEADER + b.code);
    RunOne(g, s1, "");
    RunConcat(g, s, [HEADER + b.code], [""]);
    assert [HEADER + b.code] + [""] == [HEADER + b.code, ""];
    RunPath(g, s2, b.path);
    RunConcat(g, s, [HEADER + b.code, ""], b.path);
    RunOne(g, s2, "");
    RunConcat(g, s, [HEADER + b.code, ""] + b.path, [""]);
  }

  /** Before the closing bar. */
  function Collected(s: State, b: Block): State { Opened(s, b.code).(temp := b.slice, counter := 2 + b.blanks) }

  lemma RunCollecting(g: Given, s: State, b: Block)
    requires PlainLines(b.slice)
    ensures Run(g, Opened(s, b.code), b.slice + Blanks(b.blanks)) == Some(Collected(s, b))
  {
    var s1 := Opened(s, b.code);
    RunSlice(g, s1, b.slice);
    assert [] + b.slice == b.slice;
    RunBlanks(g, s1.(temp := b.slice), b.blanks);
    RunConcat(g, s1, b.slice, Blanks(b.blanks));
  }

  lemma RunBar(g: Given, s: State)
    requires s.condensed
    ensures Run(g, s, [BAR]) == if |s.temp| > 1 then Some(Emit(g, s)) else None
  {
    BarLine();
    RunOne(g, s, BAR);
  }

  lemma RunClosing(g: Given, s: State, b: Block)
    requires PlainLines(b.slice)
    ensures Run(g, Opened(s, b.code), b.slice + Blanks(b.blanks) + [BAR]) ==
      if |b.slice| > 1 then Some(Emit(g, Collected(s, b))) else None
  {
    RunCollecting(g, s, b);
    RunBar(g, Collected(s, b));
    RunConcat(g, Opened(s, b.code), b.slice + Blanks(b.blanks), [BAR]);
  }

  lemma RunBlock(g: Given, s: State, b: Block)
    requires Idle(s) && WellFormed(b)
    ensures Run(g, s, Print(b)) == if |b.slice| > 1 then Some(Emit(g, Collected(s, b))) else None
  {
    var opening, closing := [HEADER + b.code, ""] + b.path + [""], b.slice + Blanks(b.blanks) + [BAR];
    RunOpening(g, s, b);
    RunClosing(g, s, b);
    RunConcat(g, s, opening, closing);
    RunConcat(g, s, opening + closing, b.noise);
    if |b.slice| > 1 {
      RunNoise(g, Emit(g, Collected(s, b)), b.noise);
    }
  }

  ghost predicate Enough(blocks: seq<Block>) { forall i :: 0 <= i < |blocks| ==> |blocks[i].slice| > 1 }

  ghost predicate AllWellFormed(blocks: seq<Block>) { forall i :: 0 <= i < |blocks| ==> WellFormed(blocks[i]) }

  /** One row per block, in order. */
  function RowsOf(g: Given, blocks: seq<Block>): seq<Row>
    requires Enough(blocks)
  {
    seq(|blocks|, i requires 0 <= i < |blocks| => RowOf(g, Some(blocks[i].code), blocks[i].slice))
  }

  ghost predicate Parsed(g: Given, blocks: seq<Block>, r: Option<State>) {
    if Enough(blocks) then r.Some? && Idle(r.value) && r.value.rows == RowsOf(g, blocks) else r.None?
  }

  lemma ParsedNext(g: Given, blocks: seq<Block>, b: Block, r: Option<State>)
    requires Parsed(g, blocks, r) && WellFormed(b)
    ensures Parsed(g, blocks + [b],
      match r case None => None case Some(s) => Run(g, s, Print(b)))
  {
    var all := blocks + [b];
    assert forall i :: 0 <= i < |blocks| ==> all[i] == blocks[i];
    assert all[|blocks|] == b;
    if r.Some? {
      RunBlock(g, r.value, b);
      if |b.slice| > 1 {
        assert RowsOf(g, all) == RowsOf(g, blocks) + [RowOf(g, Some(b.code), b.slice)];
      }
    }
  }

  /** Parsing what any list of well-formed blocks prints gives exactly one row per block, in order, with the block's
      code and the fields of its first, second and last condensed lines; it fails exactly when some block has fewer
      than two condensed lines. */
  lemma {:induction false} PrintedParses(g: Given, blocks: seq<Block>)
    requires AllWellFormed(blocks)
    ensures Parsed(g, blocks, Run(g, START, PrintAll(blocks)))
    decreases |blocks|
  {
    if blocks != [] {
      var init, b := blocks[..|blocks| - 1], blocks[|blocks| - 1];
      PrintedParses(g, init);
      ParsedNext(g, init, b, Run(g, START, PrintAll(init)));
      RunConcat(g, START, PrintAll(init), Print(b));
      assert init + [b] == blocks;
    }
  }
}
