/** The tests of the injection on the characters of the lines, and what they make of the injected text. */
module InjectText {
  import opened Options
  import opened Text
  import opened Inject
  import opened InjectLines
  import opened InjectPage
  import opened InjectSites

  // ---- the tests

  /** A comment line: stripped, it starts or ends with a comment mark. */
  lemma CommentMeaning(l: string)
    ensures IsComment(l) <==>
            StartsWith(Strip(l), "//") || StartsWith(Strip(l), "/*") || EndsWith(Strip(l), "*/")
  {
    EdgePairs(l, '/', '/');
    EdgePairs(l, '/', '*');
    EdgePairs(l, '*', '/');
    assert ['/', '/'] == "//" && ['/', '*'] == "/*" && ['*', '/'] == "*/";
  }

  /** The line that asks for braces holds a branch word, no brace, and no preprocessor word that holds one. */
  lemma UseBracesMeaning(prev: string)
    ensures UseBraces(prev) <==>
            && (Contains(prev, "if") || Contains(prev, "else"))
            && !Contains(prev, "{")
            && !Contains(prev, "endif") && !Contains(prev, "ifdef") && !Contains(prev, "ifndef")
  {
    assert CONTROL[0] == "if" && CONTROL[1] == "else";
    assert NOT_CONTROL[0] == "endif" && NOT_CONTROL[1] == "ifdef" && NOT_CONTROL[2] == "ifndef";
  }

  lemma ContinuesMeaning(l: string)
    ensures Continues(l) <==> EndsWith(Strip(l), ",") || EndsWith(Strip(l), "=")
  {
    EdgeCharacters(l, ',');
    EdgeCharacters(l, '=');
  }

  lemma OneEnd(s: string, c: char, d: char)
    requires EndsIn(s, c) && c != d
    ensures !EndsIn(s, d)
  {
  }

  // ---- the statement

  /** How a statement ends, by the characters of its text. */
  lemma StatementEnds(lines: seq<string>, a: nat)
    requires a < |lines| && Statement(lines, a).Some?
    ensures var e := Statement(lines, a).value;
            && !EndsWith(Strip(e.code), ",") && !EndsWith(Strip(e.code), "=")
            && (a < e.last <==> EndsWith(Strip(lines[a]), ",") || EndsWith(Strip(lines[a]), "="))
            && (a < e.last ==> EndsWith(Strip(e.code), ";"))
  {
    var e := Statement(lines, a).value;
    ContinuesMeaning(lines[a]);
    ContinuesMeaning(e.code);
    EdgeCharacters(e.code, ';');
    if Continues(lines[a]) {
      ExtendSemicolon(lines, a, lines[a]);
    }
  }

  lemma {:induction false} ExtendSemicolon(lines: seq<string>, i: nat, code: string)
    requires i < |lines| && Extend(lines, i, code).Some?
    ensures EndsIn(Extend(lines, i, code).value.code, ';')
    ensures i <= Extend(lines, i, code).value.last
    ensures !EndsIn(code, ';') ==> i < Extend(lines, i, code).value.last
    decreases |lines| - i
  {
    if !EndsIn(code, ';') {
      ExtendSemicolon(lines, i + 1, code + lines[i + 1]);
    }
  }

  /** Lines first to next - 1 do not end in the middle of an argument list or an assignment. */
  ghost predicate WholeStatement(lines: seq<string>, first: nat, next: nat)
    requires first < next <= |lines|
  {
    var text := Strip(Join(lines[first..next]));
    && !EndsWith(text, ",") && !EndsWith(text, "=")
    && (first + 1 < next <==> EndsWith(Strip(lines[first]), ",") || EndsWith(Strip(lines[first]), "="))
    && (first + 1 < next ==> EndsWith(text, ";"))
  }

  lemma StatementWhole(lines: seq<string>, a: nat)
    requires a < |lines| && Statement(lines, a).Some?
    ensures a <= Statement(lines, a).value.last < |lines|
    ensures WholeStatement(lines, a, Statement(lines, a).value.last + 1)
  {
    StatementCode(lines, a);
    StatementEnds(lines, a);
  }

  /** The text between the two strings never ends in the middle of an argument list or an assignment; it is more than
      its first line exactly when that line does, and then it ends with a semicolon. */
  lemma WrappedText(lines: seq<string>, t: nat, pre: string, post: string)
    requires t < |lines| && SiteAt(lines, t, pre, post).Some?
    ensures var s := SiteAt(lines, t, pre, post).value;
            s.first < s.next <= |lines| && WholeStatement(lines, s.first, s.next)
  {
    SiteShape(lines, t, pre, post);
    SiteElements(lines, t, pre, post);
    StatementWhole(lines, SiteAt(lines, t, pre, post).value.first);
  }

  /** The text starts at the line of the target, or one line above when that line ends an assignment and did not get
      the opening brace. */
  lemma WrappedStart(lines: seq<string>, t: nat, pre: string, post: string)
    requires t < |lines| && SiteAt(lines, t, pre, post).Some?
    ensures var s := SiteAt(lines, t, pre, post).value;
            s.first == if t > 0 && EndsWith(Strip(lines[t - 1]), "=") && s.brace != t - 1 then t - 1 else t
  {
    var prev := PrevText(lines, t - 1).value;
    FirstLineMeaning(lines, t, prev);
    if t > 0 {
      EdgeCharacters(lines[t - 1], '=');
    }
  }

  /** A call over two lines is wrapped as a whole. */
  lemma CallExample(pre: string, post: string)
    ensures var s := SiteAt(["f(a,\n", "b);\n", "x;\n"], 0, pre, post);
            s.Some? && s.value.brace == -1 && s.value.first == 0 && s.value.next == 2 && s.value.closed == post
  {
    var lines := ["f(a,\n", "b);\n", "x;\n"];
    LastLine();
    CallLine();
    assert lines[..0] == [] && PyAt(lines, -1) == Some("x;\n");
    assert PrevText(lines, 0 - 1) == Some("x;\n");
    assert FirstLine(Marked(lines[..0], "x;\n", false)) == 0;
    ExtendStep(lines, 0, lines[0]);
    assert lines[0] + lines[1] == "f(a,\nb);\n" && lines[2] == "x;\n";
    assert Statement(lines, 0) == Some(Extent(1, "f(a,\nb);\n"));
    assert post + "" == post;
  }

  lemma LastLine()
    ensures !IsComment("x;\n") && !UseBraces("x;\n")
  {
    var l := "x;\n";
    assert |l| == 3 && l[0] == 'x' && l[1] == ';' && l[2] == '\n';
    assert Lead(l) == 0 && End(l) == 2;
    UseBracesMeaning(l);
    assert 'f' !in l && 'e' !in l && "if"[1] == 'f' && "else"[0] == 'e';
    if Contains(l, "if") { ContainsCharacter(l, "if", 'f'); }
    if Contains(l, "else") { ContainsCharacter(l, "else", 'e'); }
  }

  lemma CallLine()
    ensures Continues("f(a,\n") && !EndsIn("f(a,\n", ';') && EndsIn("f(a,\nb);\n", ';')
  {
    var l, m := "f(a,\n", "f(a,\nb);\n";
    assert |l| == 5 && l[0] == 'f' && l[3] == ',' && l[4] == '\n';
    assert Lead(l) == 0 && End(l) == 4;
    assert |m| == 9 && m[0] == 'f' && m[7] == ';' && m[8] == '\n';
    assert Lead(m) == 0 && End(m) == 8;
  }

  // ---- lines of the page, which is what reading the written file gives

  /** A preprocessor line after the statement keeps its own line; any other gets the closing text in front. */
  lemma FollowingLine(lines: seq<string>, t: nat, pre: string, post: string, lead: string)
    requires t < |lines| && SiteAt(lines, t, pre, post).Some?
    ensures var s := SiteAt(lines, t, pre, post).value;
            && s.next < |lines|
            && PageLine(lines, s, lead, s.next) ==
                 if StartsWith(Strip(lines[s.next]), "#") then lines[s.next] else s.closed + lines[s.next]
  {
    var s := SiteAt(lines, t, pre, post).value;
    SiteShape(lines, t, pre, post);
    EdgeCharacters(lines[s.next], '#');
    NextLine(lines, s, lead);
  }

  lemma NextLine(lines: seq<string>, site: Site, lead: string)
    requires site.first < site.next < |lines|
    ensures PageLine(lines, site, lead, site.next)
         == if site.hash then lines[site.next] else site.closed + lines[site.next]
  {
  }

  /** The line after the one that asks for braces starts with the opening brace. */
  lemma OpeningBrace(lines: seq<string>, t: nat, pre: string, post: string, lead: string)
    requires t < |lines| && SiteAt(lines, t, pre, post).Some? && SiteAt(lines, t, pre, post).value.brace >= 0
    ensures var s := SiteAt(lines, t, pre, post).value;
            s.brace + 1 < |lines| && StartsWith(PageLine(lines, s, lead, s.brace + 1), " {")
  {
    SiteShape(lines, t, pre, post);
    BraceCarried(lines, SiteAt(lines, t, pre, post).value, lead);
  }

  lemma StartsWithFirst(a: string, b: string)
    ensures StartsWith(a + b, a)
  {
  }

  lemma BraceCarried(lines: seq<string>, site: Site, lead: string)
    requires 0 <= site.brace < site.first < site.next < |lines|
    ensures StartsWith(PageLine(lines, site, lead, site.brace + 1), " {")
  {
    assert Carry(site, lead, site.brace + 1) == " {" by { assert "" + " {" == " {"; }
    if site.brace + 1 < site.first {
      StartsWithFirst(" {", lines[site.brace + 1]);
    } else {
      WrappedFirst(lines, site, lead);
    }
  }

  lemma WrappedFirst(lines: seq<string>, site: Site, lead: string)
    requires 0 < site.first < site.next < |lines|
    ensures StartsWith(PageLine(lines, site, lead, site.first), Carry(site, lead, site.first))
  {
    StartsWithFirst(Carry(site, lead, site.first), site.pre);
  }
}
