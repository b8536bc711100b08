/** What an injection keeps and adds, and exactly when it fails. */
module InjectSites {
  import opened Options
  import opened Text
  import opened Inject
  import opened InjectPage
  import opened InjectKeeps

  // ---- exactly when the injection fails

  ghost predicate AllComments(lines: seq<string>) { forall i :: 0 <= i < |lines| ==> IsComment(lines[i]) }

  /** The line at a Python index. */
  function At(lines: seq<string>, i: int): string
    requires -|lines| <= i < |lines|
  {
    if i >= 0 then lines[i] else lines[|lines| + i]
  }

  ghost predicate CommentAt(lines: seq<string>, i: int)
    requires -|lines| <= i < |lines|
  {
    IsComment(At(lines, i))
  }

  /** Where the walk up ends: at the nearest index with text, or below every index. */
  lemma {:induction false} PrevTextAt(lines: seq<string>, i: int) returns (k: int)
    requires -|lines| - 1 <= i < |lines|
    ensures -|lines| - 1 <= k <= i
    ensures forall j :: k < j <= i ==> CommentAt(lines, j)
    ensures k >= -|lines| ==> PrevText(lines, i) == Some(At(lines, k)) && !CommentAt(lines, k)
    ensures k < -|lines| ==> PrevText(lines, i).None?
    decreases i + |lines| + 1
  {
    if i >= -|lines| && IsComment(At(lines, i)) {
      k := PrevTextAt(lines, i - 1);
    } else {
      k := i;
    }
  }

  /** The walk fails only in a file of comments, since negative indices wrap around. */
  lemma PrevTextNone(lines: seq<string>, t: nat)
    requires t < |lines|
    ensures PrevText(lines, t - 1).None? <==> AllComments(lines)
  {
    var k := PrevTextAt(lines, t - 1);
    if k < -|lines| {
      forall j | 0 <= j < |lines| ensures IsComment(lines[j]) {
        assert CommentAt(lines, j - |lines|);
      }
    } else {
      assert !IsComment(lines[if k >= 0 then k else |lines| + k]);
    }
  }

  /** With a line of text above the target, the nearest one is found. */
  lemma PrevTextAbove(lines: seq<string>, t: nat, j: nat)
    requires j < t <= |lines| && !IsComment(lines[j])
    ensures PrevText(lines, t - 1).Some? && PrevText(lines, t - 1).value in lines[..t]
  {
    var k := PrevTextAt(lines, t - 1);
    assert k < j ==> CommentAt(lines, j);
    assert lines[..t][k] == At(lines, k);
  }

  // ---- the statement

  /** The statement at line a ends with line k. */
  ghost predicate EndsWithLine(lines: seq<string>, a: nat, k: nat)
    requires a <= k < |lines|
  {
    if Continues(lines[a]) then EndsSoFar(lines, a, k) else k == a
  }

  /** Lines a to k end in a semicolon. */
  ghost predicate EndsSoFar(lines: seq<string>, a: nat, k: nat)
    requires a <= k < |lines|
  {
    EndsIn(Join(lines[a..k + 1]), ';')
  }

  lemma JoinNext(lines: seq<string>, a: nat, k: nat)
    requires a <= k < |lines|
    ensures Join(lines[a..k + 1]) == Join(lines[a..k]) + lines[k]
  {
    assert lines[a..k + 1][..k - a] == lines[a..k];
  }

  lemma {:induction false} ExtendMeaning(lines: seq<string>, a: nat, i: nat)
    requires a <= i < |lines|
    ensures var e := Extend(lines, i, Join(lines[a..i + 1]));
            && (e.Some? ==> i <= e.value.last < |lines| && EndsSoFar(lines, a, e.value.last))
            && forall k :: i <= k < (if e.Some? then e.value.last else |lines|) ==> !EndsSoFar(lines, a, k)
    decreases |lines| - i
  {
    if !EndsSoFar(lines, a, i) && i + 1 < |lines| {
      JoinNext(lines, a, i + 1);
      ExtendMeaning(lines, a, i + 1);
    }
  }

  /** A statement ends with the first line that completes it, if any. */
  lemma StatementMeaning(lines: seq<string>, a: nat)
    requires a < |lines|
    ensures var e := Statement(lines, a);
            && (e.Some? ==> a <= e.value.last < |lines| && EndsWithLine(lines, a, e.value.last))
            && forall k :: a <= k < (if e.Some? then e.value.last else |lines|) ==> !EndsWithLine(lines, a, k)
  {
    JoinNext(lines, a, a);
    assert lines[a..a] == [] && Join([]) == "" && "" + lines[a] == lines[a];
    ExtendMeaning(lines, a, a);
  }

  /** Whether the line in front of the target belongs to its statement. */
  predicate StepsBack(lines: seq<string>, t: nat, prev: string)
    requires t < |lines|
  {
    t > 0 && EndsIn(lines[t - 1], '=') && BraceLine(lines[..t], prev) != t - 1
  }

  lemma FirstLineMeaning(lines: seq<string>, t: nat, prev: string)
    requires t < |lines|
    ensures FirstLine(Marked(lines[..t], prev, UseBraces(prev))) == if StepsBack(lines, t, prev) then t - 1 else t
  {
    if t > 0 {
      MarkedAt(lines, t, prev, t - 1);
      BraceEnds(lines[t - 1]);
      assert lines[t - 1] + "" == lines[t - 1];
    }
  }

  /** A line of text is found, and some line but the last completes the statement of the target. */
  ghost predicate Completed(lines: seq<string>, t: nat)
    requires t < |lines|
  {
    && PrevText(lines, t - 1).Some?
    && CompletedFrom(lines, if StepsBack(lines, t, PrevText(lines, t - 1).value) then t - 1 else t)
  }

  ghost predicate CompletedFrom(lines: seq<string>, a: nat) {
    exists k :: a <= k < |lines| - 1 && EndsWithLine(lines, a, k)
  }

  lemma CompletedStatement(lines: seq<string>, a: nat)
    requires a < |lines|
    ensures CompletedFrom(lines, a) <==> Statement(lines, a).Some? && Statement(lines, a).value.last + 1 < |lines|
  {
    StatementMeaning(lines, a);
  }

  /** An injection succeeds exactly where some line has text and a line before the last completes the statement. */
  lemma SucceedsExactly(lines: seq<string>, t: nat, pre: string, post: string, prepend: string)
    requires t < |lines|
    ensures Injected(lines, t + 1, pre, post, prepend).Ok? <==> !AllComments(lines) && Completed(lines, t)
  {
    PrevTextNone(lines, t);
    InjectedCases(lines, t + 1, pre, post, prepend);
    SiteElements(lines, t, pre, post);
    SiteWhereCompleted(lines, t, pre, post);
  }

  lemma SiteWhereCompleted(lines: seq<string>, t: nat, pre: string, post: string)
    requires t < |lines|
    ensures SiteAt(lines, t, pre, post).Some? <==> Completed(lines, t)
  {
    match PrevText(lines, t - 1)
    case None =>
    case Some(prev) => SiteAfterCompleted(lines, t, prev, pre, post);
  }

  lemma SiteAfterCompleted(lines: seq<string>, t: nat, prev: string, pre: string, post: string)
    requires t < |lines|
    ensures SiteAfter(lines, t, prev, pre, post).Some? <==>
            CompletedFrom(lines, if StepsBack(lines, t, prev) then t - 1 else t)
  {
    FirstLineMeaning(lines, t, prev);
    CompletedStatement(lines, if StepsBack(lines, t, prev) then t - 1 else t);
  }

  // ---- braces

  /** An opening brace is added exactly when a closing one is. */
  predicate Paired(site: Site, post: string) { site.closed == post + if site.brace >= 0 then " }" else "" }

  lemma ClosingAdded(post: string)
    ensures post + " }" != post + ""
  {
    assert |post + " }"| == |post| + 2;
  }

  lemma FirstIndexFound(lines: seq<string>, t: string)
    ensures FirstIndex(lines, t) < |lines| <==> t in lines
  {
    if t in lines {
      var i :| 0 <= i < |lines| && lines[i] == t;
    }
  }

  /** The braces are paired exactly when the text that asks for them stands before the target. */
  lemma PairedExactly(lines: seq<string>, t: nat, pre: string, post: string)
    requires t < |lines| && SiteAt(lines, t, pre, post).Some?
    ensures var prev := PrevText(lines, t - 1).value;
            Paired(SiteAt(lines, t, pre, post).value, post) <==> (UseBraces(prev) ==> prev in lines[..t])
  {
    SiteElements(lines, t, pre, post);
    ClosingAdded(post);
    FirstIndexFound(lines[..t], PrevText(lines, t - 1).value);
  }

  /** They are whenever some line before the target is not a comment. */
  lemma PairedBelowText(lines: seq<string>, t: nat, j: nat, pre: string, post: string)
    requires t < |lines| && SiteAt(lines, t, pre, post).Some? && j < t && !IsComment(lines[j])
    ensures Paired(SiteAt(lines, t, pre, post).value, post)
  {
    PairedExactly(lines, t, pre, post);
    PrevTextAbove(lines, t, j);
  }

  // ---- where the opening brace goes

  /** The text that decides about braces is on the nearest line of text above the target. */
  lemma NearestText(lines: seq<string>, t: nat, k: nat)
    requires k < t <= |lines| && !IsComment(lines[k]) && forall j :: k < j < t ==> IsComment(lines[j])
    ensures PrevText(lines, t - 1) == Some(lines[k])
  {
    var i := PrevTextAt(lines, t - 1);
    assert i < k ==> CommentAt(lines, k);
    assert i >= 0 ==> At(lines, i) == lines[i];
  }

  lemma FirstIndexAt(lines: seq<string>, k: nat)
    requires k < |lines|
    ensures FirstIndex(lines, lines[k]) <= k
    ensures FirstIndex(lines, lines[k]) == k <==> lines[k] !in lines[..k]
  {
    var n := FirstIndex(lines, lines[k]);
    if n < k {
      assert lines[..k][n] == lines[k];
    }
  }

  /** The opening brace goes to the line that asks for it exactly when no earlier line has the same text; otherwise it
      goes to the first such line, and opens a block there. */
  lemma BraceExactly(lines: seq<string>, t: nat, k: nat, pre: string, post: string)
    requires t < |lines| && SiteAt(lines, t, pre, post).Some?
    requires k < t && !IsComment(lines[k]) && (forall j :: k < j < t ==> IsComment(lines[j])) && UseBraces(lines[k])
    ensures var b := SiteAt(lines, t, pre, post).value.brace;
            0 <= b <= k && lines[b] == lines[k] && (b == k <==> lines[k] !in lines[..k])
  {
    NearestText(lines, t, k);
    SiteElements(lines, t, pre, post);
    FirstIndexAt(lines[..t], k);
    assert lines[..t][..k] == lines[..k] && lines[..t][k] == lines[k];
  }

  lemma IfLine()
    ensures UseBraces("if (a)\n") && !IsComment("if (a)\n") && !StartsIn("if (a)\n", '#')
  {
    var l := "if (a)\n";
    assert |l| == 7 && l[0] == 'i' && l[1] == 'f' && l[4] == 'a' && l[5] == ')' && l[6] == '\n';
    assert Lead(l) == 0 && End(l) == 6;
    assert l[0..2] == "if" && OccursAt(l, "if", 0);
    assert CONTROL[0] == "if" && HasAny(l, CONTROL);
    forall i: nat | i <= |l| ensures !OccursAt(l, "{", i) {
      if i + 1 <= |l| {
        assert l[i..i + 1][0] == l[i] && "{"[0] == '{';
      }
    }
    forall i | 0 <= i < |NOT_CONTROL| ensures !Contains(l, NOT_CONTROL[i]) {
      NoNotControl(NOT_CONTROL[i]);
    }
  }

  lemma ContainsCharacter(s: string, t: string, c: char)
    requires Contains(s, t) && c in t
    ensures c in s
  {
    var i: nat :| i <= |s| && OccursAt(s, t, i);
    var m :| 0 <= m < |t| && t[m] == c;
    assert s[i..i + |t|][m] == s[i + m];
  }

  /** Each of the other words has a letter d, and there is none in the line. */
  lemma NoNotControl(w: string)
    requires w in NOT_CONTROL
    ensures !Contains("if (a)\n", w)
  {
    var l := "if (a)\n";
    assert 'd' in w by {
      assert "endif"[2] == 'd' && "ifdef"[2] == 'd' && "ifndef"[3] == 'd';
    }
    assert 'd' !in l;
    if Contains(l, w) {
      ContainsCharacter(l, w, 'd');
    }
  }

  lemma CodeLine()
    ensures !Continues("x;\n") && !StartsIn("x;\n", '#')
  {
    var l := "x;\n";
    assert |l| == 3 && l[0] == 'x' && l[1] == ';' && l[2] == '\n';
    assert Lead(l) == 0 && End(l) == 2;
  }

  /** A target on the first line of a file that ends in an unbraced branch gets a closing brace alone. */
  lemma UnpairedExample(pre: string, post: string)
    ensures SiteAt(["x;\n", "if (a)\n"], 0, pre, post) == Some(Site(-1, 0, 1, false, pre, post + " }"))
  {
    var lines := ["x;\n", "if (a)\n"];
    IfLine();
    assert PyAt(lines, -1) == Some("if (a)\n");
    CodeLine();
    assert lines[0] == "x;\n" && lines[..0] == [];
  }

  /** A second branch with the same condition: its brace is opened at the first. */
  lemma WrongBranchExample(pre: string, post: string)
    ensures var s := SiteAt(["if (a)\n", "x;\n", "if (a)\n", "x;\n", "x;\n"], 3, pre, post);
            s.Some? && s.value.brace == 0 && s.value.first == 3 && s.value.next == 4
  {
    var lines := ["if (a)\n", "x;\n", "if (a)\n", "x;\n", "x;\n"];
    IfLine();
    CodeLine();
    NearestText(lines, 3, 2);
    FirstIndexAt(lines[..3], 2);
    assert lines[..3][0] == "if (a)\n" && lines[..3][2] == "if (a)\n";
    assert FirstIndex(lines[..3], "if (a)\n") == 0;
    assert lines[2] == "if (a)\n" && !EndsIn("if (a)\n", '=') by { IfNotAssigned(); }
    FirstLineMeaning(lines, 3, "if (a)\n");
  }

  lemma IfNotAssigned()
    ensures !EndsIn("if (a)\n", '=')
  {
    var l := "if (a)\n";
    assert |l| == 7 && l[0] == 'i' && l[5] == ')' && l[6] == '\n';
    assert Lead(l) == 0 && End(l) == 6;
  }

  // ---- what stays

  /** o still holds the stripped text of l. */
  ghost predicate KeptAt(l: string, o: string) { Contains(o, Strip(l)) }

  /** Moved down by c lines, every line still holds its stripped text. */
  ghost predicate Kept(lines: seq<string>, out: seq<string>, c: nat) {
    |out| == c + |lines| && forall i :: 0 <= i < |lines| ==> KeptAt(lines[i], out[c + i])
  }

  /** Every line away from the site is as it was. */
  ghost predicate Same(lines: seq<string>, site: Site, out: seq<string>, c: nat) {
    |out| == c + |lines| && forall i :: 0 <= i < |lines| && Away(site, i) ==> out[c + i] == lines[i]
  }

  lemma SlicesKept(l: string, a: nat, b: nat)
    requires a <= b <= |l|
    ensures Contains(l[a..], l[a..b]) && Contains(l[..b], l[a..b])
  {
    assert l[a..][..b - a] == l[a..b] && l[..b][a..b] == l[a..b];
    assert OccursAt(l[a..], l[a..b], 0) && OccursAt(l[..b], l[a..b], a);
  }

  lemma EdgesKept(l: string)
    ensures Contains(LeftStripped(l), Strip(l)) && Contains(RightStripped(l), Strip(l)) && Contains(l, Strip(l))
  {
    ContainsStrip(l);
    EdgesMeaning(l);
    if Blank(l) {
      assert OccursAt(LeftStripped(l), "", 0) && OccursAt(RightStripped(l), "", 0);
    } else {
      SlicesKept(l, Lead(l), End(l));
    }
  }

  lemma ContainsAfter(r: string, l: string, t: string)
    requires Contains(l, t)
    ensures Contains(r + l, t)
  {
    ContainsWithin(r, l, "", t);
    assert r + l + "" == r + l;
  }

  lemma ClosingKept(body: string, site: Site, t: string)
    requires Contains(body, t)
    ensures Contains(Closing(body, site), t)
  {
    ContainsWithin("", body, " " + site.closed + "\n", t);
    assert "" + body + (" " + site.closed + "\n") == Closing(body, site);
  }

  lemma WrappedKept(l: string, b: string, site: Site)
    ensures Contains(b + l, Strip(l)) && Contains(b + LeftStripped(l), Strip(l))
    ensures Contains(b + Closing(Strip(l), site), Strip(l)) && Contains(b + Closing(RightStripped(l), site), Strip(l))
  {
    EdgesKept(l);
    ContainsSelf(Strip(l));
    ClosingKept(Strip(l), site, Strip(l));
    ClosingKept(RightStripped(l), site, Strip(l));
    ContainsAfter(b, l, Strip(l));
    ContainsAfter(b, LeftStripped(l), Strip(l));
    ContainsAfter(b, Closing(Strip(l), site), Strip(l));
    ContainsAfter(b, Closing(RightStripped(l), site), Strip(l));
  }

  /** Line i of the page holds the stripped text of line i. */
  lemma PageKeeps(lines: seq<string>, site: Site, lead: string, i: nat)
    requires Sited(lines, site) && i < |lines|
    ensures KeptAt(lines[i], PageLine(lines, site, lead, i))
  {
    if i < site.first || i > site.next {
      WrappedKept(lines[i], Carry(site, lead, i), site);
    } else if i == site.next {
      WrappedKept(lines[i], site.closed, site);
      EdgesKept(lines[i]);
    } else {
      WrappedKept(lines[i], if i == site.first then Carry(site, lead, i) + site.pre else "", site);
    }
  }

  /** Away from the start of the file, the brace, and the lines where the wrapping begins and ends. */
  ghost predicate Away(site: Site, i: nat) {
    0 < i && i != site.brace + 1 && i != site.first && i != (if site.hash then site.next - 1 else site.next)
  }

  lemma PageUntouched(lines: seq<string>, site: Site, lead: string, i: nat)
    requires Sited(lines, site) && i < |lines| && Away(site, i)
    ensures PageLine(lines, site, lead, i) == lines[i]
  {
    assert "" + lines[i] == lines[i];
    assert "" + "" + lines[i] == lines[i];
  }

  /** After one injection the file has the lines of the prepended text in front and then as many lines as before; line
      i still holds the stripped text of line i. */
  lemma InjectionKeeps(lines: seq<string>, t: nat, pre: string, post: string, prepend: string)
    requires FileLines(lines) && NoNewline(pre) && NoNewline(post) && t < |lines|
    requires Injected(lines, t + 1, pre, post, prepend).Ok?
    ensures var out := ReadLines(Join(Injected(lines, t + 1, pre, post, prepend).lines));
            Kept(lines, out, |Whole(prepend)|) && out[..|Whole(prepend)|] == Whole(prepend)
  {
    InjectedPage(lines, t, pre, post, prepend);
    SitedAt(lines, t, pre, post);
    KeptPage(Whole(prepend), lines, SiteAt(lines, t, pre, post).value, Rest(prepend));
  }

  /** Away from the site no line is changed at all. */
  lemma InjectionLeaves(lines: seq<string>, t: nat, pre: string, post: string, prepend: string)
    requires FileLines(lines) && NoNewline(pre) && NoNewline(post) && t < |lines|
    requires Injected(lines, t + 1, pre, post, prepend).Ok?
    ensures SiteAt(lines, t, pre, post).Some?
    ensures var out := ReadLines(Join(Injected(lines, t + 1, pre, post, prepend).lines));
            Same(lines, SiteAt(lines, t, pre, post).value, out, |Whole(prepend)|)
  {
    InjectedPage(lines, t, pre, post, prepend);
    SitedAt(lines, t, pre, post);
    SamePage(Whole(prepend), lines, SiteAt(lines, t, pre, post).value, Rest(prepend));
  }

  lemma KeptPage(head: seq<string>, lines: seq<string>, site: Site, lead: string)
    requires Sited(lines, site)
    ensures var out := head + Page(lines, site, lead); Kept(lines, out, |head|) && out[..|head|] == head
  {
    var out, c := head + Page(lines, site, lead), |head|;
    forall i | 0 <= i < |lines| ensures KeptAt(lines[i], out[c + i]) {
      assert out[c + i] == PageLine(lines, site, lead, i);
      PageKeeps(lines, site, lead, i);
    }
  }

  lemma SamePage(head: seq<string>, lines: seq<string>, site: Site, lead: string)
    requires Sited(lines, site)
    ensures Same(lines, site, head + Page(lines, site, lead), |head|)
  {
    var out, c := head + Page(lines, site, lead), |head|;
    forall i | 0 <= i < |lines| && Away(site, i) ensures out[c + i] == lines[i] {
      assert out[c + i] == PageLine(lines, site, lead, i);
      PageUntouched(lines, site, lead, i);
    }
  }

  lemma PrependedText(lines: seq<string>, prepend: string, page: seq<string>)
    requires lines != [] && page == [Rest(prepend) + lines[0]] + lines[1..]
    ensures Join([prepend] + lines) == Join(Whole(prepend) + page)
  {
    CarriedText(Rest(prepend), lines);
    JoinConcat([prepend], lines);
    JoinOne(prepend);
    SplitText(prepend);
    JoinConcat(Whole(prepend), page);
    Regroup(Join(Whole(prepend)), Rest(prepend), Join(lines));
  }

  lemma PrependedFile(lines: seq<string>, prepend: string, page: seq<string>)
    requires lines != [] && FileLines(lines) && page == [Rest(prepend) + lines[0]] + lines[1..]
    ensures FileLines(Whole(prepend) + page)
  {
    RestNoNewline(prepend, |prepend|);
    WholeLines(prepend, |prepend|);
    Prefixed(Rest(prepend), lines[0], |lines| == 1);
    forall i | 0 <= i < |page| ensures LineOrEnd(page[i], i == |page| - 1) {
      assert LineOrEnd(lines[i], i == |lines| - 1);
    }
    FileOf(Whole(prepend), page);
  }

  /** A line number outside the file only prepends. */
  lemma OutsideKeeps(lines: seq<string>, lineNumber: int, pre: string, post: string, prepend: string)
    requires FileLines(lines) && lines != [] && !(1 <= lineNumber <= |lines|)
    ensures Injected(lines, lineNumber, pre, post, prepend) == Ok([prepend] + lines)
    ensures ReadLines(Join([prepend] + lines)) == Whole(prepend) + ([Rest(prepend) + lines[0]] + lines[1..])
  {
    var page := [Rest(prepend) + lines[0]] + lines[1..];
    PrependedText(lines, prepend, page);
    PrependedFile(lines, prepend, page);
    ReadJoin(Whole(prepend) + page);
  }
}
