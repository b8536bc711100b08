/** One injection writes the page its site describes. */
module InjectKeeps {
  import opened Options
  import opened Text
  import opened Inject
  import opened InjectLines
  import opened InjectPage

  ghost predicate Sited(lines: seq<string>, site: Site) {
    && -1 <= site.brace < site.first < site.next < |lines|
    && (site.hash && site.first + 1 < site.next ==> !Blank(lines[site.first]) && !Blank(lines[site.next - 1]))
  }

  // ---- the three parts of the page

  lemma SliceIs(page: seq<string>, a: nat, h: seq<string>)
    requires a + |h| <= |page| && forall i :: 0 <= i < |h| ==> h[i] == page[a + i]
    ensures page[a..a + |h|] == h
  {
  }

  lemma PageBlockAt(lines: seq<string>, site: Site, lead: string, i: nat)
    requires Sited(lines, site) && !site.hash && site.first <= i < site.next
    ensures PageLine(lines, site, lead, i) ==
      if i == site.first then Carry(site, lead, i) + site.pre + lines[i] else lines[i]
  {
    assert "" + lines[i] == lines[i];
  }

  lemma PageBlock(lines: seq<string>, site: Site, lead: string)
    requires Sited(lines, site) && !site.hash
    ensures Page(lines, site, lead)[site.first..site.next] ==
      [Carry(site, lead, site.first) + site.pre + lines[site.first]] + lines[site.first..site.next][1..]
  {
    var ls := lines[site.first..site.next];
    var h := [Carry(site, lead, site.first) + site.pre + lines[site.first]] + ls[1..];
    forall i | 0 <= i < |h| ensures h[i] == Page(lines, site, lead)[site.first + i] {
      PageBlockAt(lines, site, lead, site.first + i);
    }
    SliceIs(Page(lines, site, lead), site.first, h);
  }

  /** The wrapped line k lines after the first, before a preprocessor line. */
  function HashLine(l: string, k: nat, n: nat, b: string, site: Site): string {
    if n == 1 then b + Closing(Strip(l), site)
    else if k == 0 then b + LeftStripped(l)
    else if k + 1 == n then Closing(RightStripped(l), site)
    else l
  }

  lemma HashLinesAt(ls: seq<string>, r: string, site: Site, k: nat)
    requires k < |ls|
    ensures |HashLines(ls, r, site)| == |ls|
    ensures HashLines(ls, r, site)[k] == HashLine(ls[k], k, |ls|, r + site.pre, site)
  {
  }

  lemma HashLineAt(lines: seq<string>, site: Site, lead: string, k: nat)
    requires Sited(lines, site) && site.hash && site.first + k < site.next
    ensures PageLine(lines, site, lead, site.first + k) == HashLine(
      lines[site.first + k], k, site.next - site.first, Carry(site, lead, site.first) + site.pre, site)
  {
    var l := lines[site.first + k];
    assert "" + Closing(RightStripped(l), site) == Closing(RightStripped(l), site) && "" + l == l;
  }

  lemma HashPageAt(lines: seq<string>, site: Site, lead: string, k: nat)
    requires Sited(lines, site) && site.hash && site.first + k < site.next
    ensures var h := HashLines(lines[site.first..site.next], Carry(site, lead, site.first), site);
            |h| == site.next - site.first && h[k] == PageLine(lines, site, lead, site.first + k)
  {
    HashLinesAt(lines[site.first..site.next], Carry(site, lead, site.first), site, k);
    HashLineAt(lines, site, lead, k);
  }

  lemma BlockIs(lines: seq<string>, site: Site, lead: string, h: seq<string>)
    requires site.first <= site.next <= |lines| && |h| == site.next - site.first
    requires forall k :: 0 <= k < |h| ==> h[k] == PageLine(lines, site, lead, site.first + k)
    ensures Page(lines, site, lead)[site.first..site.next] == h
  {
    SliceIs(Page(lines, site, lead), site.first, h);
  }

  lemma PageBlockHash(lines: seq<string>, site: Site, lead: string)
    requires Sited(lines, site) && site.hash
    ensures Page(lines, site, lead)[site.first..site.next] ==
      HashLines(lines[site.first..site.next], Carry(site, lead, site.first), site)
  {
    var h := HashLines(lines[site.first..site.next], Carry(site, lead, site.first), site);
    HashPageAt(lines, site, lead, 0);
    forall k | 0 <= k < |h| ensures h[k] == PageLine(lines, site, lead, site.first + k) {
      HashPageAt(lines, site, lead, k);
    }
    BlockIs(lines, site, lead, h);
  }

  lemma PageTailAt(lines: seq<string>, site: Site, lead: string, i: nat)
    requires Sited(lines, site) && site.next <= i < |lines|
    ensures PageLine(lines, site, lead, i) ==
      if i == site.next && !site.hash then site.closed + lines[i] else lines[i]
  {
    assert i > site.next ==> Carry(site, lead, i) == "" && "" + lines[i] == lines[i];
  }

  lemma PageTail(lines: seq<string>, site: Site, lead: string)
    requires Sited(lines, site)
    ensures Page(lines, site, lead)[site.next..] ==
      if site.hash then lines[site.next..] else [site.closed + lines[site.next]] + lines[site.next..][1..]
  {
    var ls := lines[site.next..];
    var h := if site.hash then ls else [site.closed + lines[site.next]] + ls[1..];
    forall i | 0 <= i < |h| ensures h[i] == Page(lines, site, lead)[site.next + i] {
      PageTailAt(lines, site, lead, site.next + i);
    }
    SliceIs(Page(lines, site, lead), site.next, h);
  }

  // ---- their text

  /** What one injection writes for its statement. */
  function Element(site: Site, code: string): string {
    if site.hash then site.pre + (Strip(code) + " ") + (site.closed + "\n") else site.pre + code + site.closed
  }

  lemma BlockText(lines: seq<string>, site: Site, lead: string)
    requires Sited(lines, site)
    ensures var page, code := Page(lines, site, lead), Join(lines[site.first..site.next]);
            Join(page[site.first..site.next]) ==
              if site.hash then Carry(site, lead, site.first) + Element(site, code)
              else Carry(site, lead, site.first) + site.pre + code
  {
    var ls, r := lines[site.first..site.next], Carry(site, lead, site.first);
    if site.hash {
      PageBlockHash(lines, site, lead);
      if |ls| == 1 {
        assert ls == [ls[0]];
        HashTextOne(ls[0], r, site);
      } else {
        HashTextMany(ls, r, site);
      }
    } else {
      PageBlock(lines, site, lead);
      CarriedText(r + site.pre, ls);
    }
  }

  lemma TailText(lines: seq<string>, site: Site, lead: string)
    requires Sited(lines, site)
    ensures Join(Page(lines, site, lead)[site.next..]) ==
      (if site.hash then "" else site.closed) + Join(lines[site.next..])
  {
    PageTail(lines, site, lead);
    if site.hash {
      assert "" + Join(lines[site.next..]) == Join(lines[site.next..]);
    } else {
      CarriedText(site.closed, lines[site.next..]);
    }
  }

  lemma Halves(page: seq<string>, a: nat)
    requires a <= |page|
    ensures Join(page) == Join(page[..a]) + Join(page[a..])
  {
    assert page[..a] + page[a..] == page;
    JoinParts(page, page[..a], page[a..]);
  }

  lemma JoinParts(page: seq<string>, a: seq<string>, b: seq<string>)
    requires page == a + b
    ensures Join(page) == Join(a) + Join(b)
  {
    JoinConcat(a, b);
  }

  lemma Thirds(page: seq<string>, a: nat, b: nat)
    requires a <= b <= |page|
    ensures Join(page) == Join(page[..a]) + Join(page[a..b]) + Join(page[b..])
  {
    Halves(page, b);
    Halves(page[..b], a);
    assert page[..b][..a] == page[..a] && page[..b][a..] == page[a..b];
  }

  lemma GluePlain(p: string, c: string, lead: string, m: string, pre: string, code: string, closed: string, t: string)
    requires p + c == lead + m
    ensures p + (c + pre + code) + (closed + t) == lead + m + (pre + code + closed) + t
  {
    assert p + (c + pre + code) + (closed + t) == (p + c) + (pre + code + closed) + t;
  }

  lemma GlueHash(p: string, c: string, lead: string, m: string, e: string, t: string)
    requires p + c == lead + m
    ensures p + (c + e) + ("" + t) == lead + m + e + t
  {
    assert p + (c + e) + ("" + t) == (p + c) + e + t;
  }

  lemma PageText(lines: seq<string>, site: Site, lead: string, m: seq<string>)
    requires Sited(lines, site) && |m| == site.first
    requires Front(m, lines, Page(lines, site, lead), site, lead)
    ensures Join(Page(lines, site, lead)) ==
      lead + Join(m) + Element(site, Join(lines[site.first..site.next])) + Join(lines[site.next..])
  {
    var page, code := Page(lines, site, lead), Join(lines[site.first..site.next]);
    var c, t := Carry(site, lead, site.first), Join(lines[site.next..]);
    Thirds(page, site.first, site.next);
    FrontText(m, lines, page, site, lead, site.first);
    assert m[..site.first] == m;
    BlockText(lines, site, lead);
    TailText(lines, site, lead);
    if site.hash {
      GlueHash(Join(page[..site.first]), c, lead, Join(m), Element(site, code), t);
    } else {
      GluePlain(Join(page[..site.first]), c, lead, Join(m), site.pre, code, site.closed, t);
    }
  }

  // ---- the page is a list of lines

  lemma LineEdges(l: string)
    requires IsLine(l)
    ensures NoNewline(Strip(l)) && NoNewline(RightStripped(l))
    ensures !Blank(l) ==> IsLine(LeftStripped(l))
  {
    EdgesMeaning(l);
    assert IsSpace(l[|l| - 1]);
  }

  lemma ClosingLine(body: string, site: Site)
    requires NoNewline(body) && NoNewline(site.closed)
    ensures IsLine(Closing(body, site))
  {
    var c := Closing(body, site);
    assert c == body + " " + site.closed + "\n";
    assert c[..|c| - 1] == body + " " + site.closed;
    assert forall i :: 0 <= i < |c| - 1 ==> c[i] == c[..|c| - 1][i];
  }

  /** l is a complete line or, when last holds, perhaps an unfinished one. */
  ghost predicate LineOrEnd(l: string, last: bool) { IsLine(l) || (last && l != "" && NoNewline(l)) }

  lemma Prefixed(r: string, l: string, last: bool)
    requires NoNewline(r) && LineOrEnd(l, last)
    ensures LineOrEnd(r + l, last)
  {
  }

  lemma FirstIsLine(l: string, b: string, site: Site)
    requires IsLine(l) && NoNewline(b) && NoNewline(site.closed)
    ensures IsLine(b + l) && IsLine(b + Closing(Strip(l), site)) && (!Blank(l) ==> IsLine(b + LeftStripped(l)))
    ensures IsLine(b + Closing(RightStripped(l), site))
  {
    LineEdges(l);
    ClosingLine(Strip(l), site);
    ClosingLine(RightStripped(l), site);
    Prefixed(b, l, false);
    Prefixed(b, Closing(Strip(l), site), false);
    Prefixed(b, Closing(RightStripped(l), site), false);
    if !Blank(l) {
      Prefixed(b, LeftStripped(l), false);
    }
  }

  lemma WrappedIsLine(lines: seq<string>, site: Site, lead: string, i: nat)
    requires Sited(lines, site) && site.first <= i < site.next && IsLine(lines[i])
    requires NoNewline(lead) && NoNewline(site.pre) && NoNewline(site.closed)
    ensures IsLine(PageLine(lines, site, lead, i))
  {
    FirstIsLine(lines[i], if i == site.first then Carry(site, lead, i) + site.pre else "", site);
  }

  lemma PageLineIsLine(lines: seq<string>, site: Site, lead: string, i: nat)
    requires Sited(lines, site) && i < |lines| && LineOrEnd(lines[i], i == |lines| - 1)
    requires NoNewline(lead) && NoNewline(site.pre) && NoNewline(site.closed)
    ensures LineOrEnd(PageLine(lines, site, lead, i), i == |lines| - 1)
  {
    if site.first <= i < site.next {
      WrappedIsLine(lines, site, lead, i);
    } else {
      Prefixed(if i == site.next then site.closed else Carry(site, lead, i), lines[i], i == |lines| - 1);
    }
  }

  lemma PageIsLines(lines: seq<string>, site: Site, lead: string)
    requires Sited(lines, site) && FileLines(lines)
    requires NoNewline(lead) && NoNewline(site.pre) && NoNewline(site.closed)
    ensures var page := Page(lines, site, lead);
            forall i :: 0 <= i < |page| ==> LineOrEnd(page[i], i == |page| - 1)
  {
    forall i | 0 <= i < |lines| ensures LineOrEnd(PageLine(lines, site, lead, i), i == |lines| - 1) {
      PageLineIsLine(lines, site, lead, i);
    }
  }

  lemma FileOf(head: seq<string>, page: seq<string>)
    requires page != []
    requires forall i :: 0 <= i < |head| ==> IsLine(head[i])
    requires forall i :: 0 <= i < |page| ==> LineOrEnd(page[i], i == |page| - 1)
    ensures FileLines(head + page)
  {
    var all := head + page;
    assert all[|all| - 1] == page[|page| - 1];
    forall i | 0 <= i < |all| - 1 ensures IsLine(all[i]) {
      if i >= |head| {
        assert all[i] == page[i - |head|] && LineOrEnd(page[i - |head|], false);
      }
    }
  }

  // ---- all together

  lemma SitedFrom(lines: seq<string>, s: Site)
    requires -1 <= s.brace < s.first < s.next < |lines|
    requires Statement(lines, s.first).Some? && Statement(lines, s.first).value.last + 1 == s.next
    ensures Sited(lines, s)
    ensures Statement(lines, s.first).value.code == Join(lines[s.first..s.next])
  {
    StatementCode(lines, s.first);
  }

  lemma SitedAt(lines: seq<string>, t: nat, pre: string, post: string)
    requires t < |lines| && SiteAt(lines, t, pre, post).Some?
    ensures Sited(lines, SiteAt(lines, t, pre, post).value)
  {
    var s := SiteAt(lines, t, pre, post).value;
    SiteShape(lines, t, pre, post);
    SiteElements(lines, t, pre, post);
    SitedFrom(lines, s);
  }

  lemma FrontAt(lines: seq<string>, t: nat, pre: string, post: string, lead: string)
    requires t < |lines| && SiteAt(lines, t, pre, post).Some?
    ensures var s, prev := SiteAt(lines, t, pre, post).value, PrevText(lines, t - 1).value;
            var marked := Marked(lines[..t], prev, UseBraces(prev));
            s.first <= |marked| && Front(marked[..s.first], lines, Page(lines, s, lead), s, lead)
  {
    var s, prev := SiteAt(lines, t, pre, post).value, PrevText(lines, t - 1).value;
    SiteShape(lines, t, pre, post);
    SiteElements(lines, t, pre, post);
    var marked := Marked(lines[..t], prev, UseBraces(prev));
    forall i | 0 <= i < s.first ensures FrontLine(marked[..s.first][i], lines[i], Page(lines, s, lead)[i], s, lead, i) {
      MarkedAt(lines, t, prev, i);
    }
  }

  lemma ElementFrom(s: Site, code: string, post: string, braces: bool, next: string)
    requires s.closed == post + (if braces then " }" else "") && s.hash == StartsIn(next, '#')
    ensures Element(s, code) == Wrapped(s.pre, code, post, braces, next)
  {
  }

  lemma ElementAt(lines: seq<string>, t: nat, pre: string, post: string)
    requires t < |lines| && SiteAt(lines, t, pre, post).Some?
    ensures var s, prev := SiteAt(lines, t, pre, post).value, PrevText(lines, t - 1).value;
            && s.first < s.next < |lines| && s.first <= |Marked(lines[..t], prev, UseBraces(prev))|
            && AtTarget(lines, t, pre, post) == Some(Rewrite(
                 Marked(lines[..t], prev, UseBraces(prev))[..s.first]
                 + [Element(s, Join(lines[s.first..s.next]))], s.next))
  {
    var s := SiteAt(lines, t, pre, post).value;
    SiteShape(lines, t, pre, post);
    SiteElements(lines, t, pre, post);
    SitedFrom(lines, s);
    var braces := UseBraces(PrevText(lines, t - 1).value);
    ElementFrom(s, Join(lines[s.first..s.next]), post, braces, lines[s.next]);
  }

  lemma JoinElements(prepend: string, m: seq<string>, e: string, rest: seq<string>)
    ensures Join([prepend] + (m + [e]) + rest) == prepend + Join(m) + e + Join(rest)
  {
    JoinConcat([prepend] + (m + [e]), rest);
    JoinConcat([prepend], m + [e]);
    JoinConcat(m, [e]);
    JoinOne(prepend);
    JoinOne(e);
    Regroup(prepend, Join(m), e);
  }

  lemma HeadText(prepend: string, m: string, e: string, rest: string, page: seq<string>)
    requires Join(page) == Rest(prepend) + m + e + rest
    ensures Join(Whole(prepend) + page) == prepend + m + e + rest
  {
    SplitText(prepend);
    JoinConcat(Whole(prepend), page);
    GlueHead(Join(Whole(prepend)), Rest(prepend), m, e, rest);
  }

  lemma GlueHead(h: string, r: string, m: string, e: string, t: string)
    ensures h + (r + m + e + t) == (h + r) + m + e + t
  {
  }

  /** The text written is the text of the page. */
  lemma WrittenText(lines: seq<string>, t: nat, pre: string, post: string, prepend: string)
    requires t < |lines| && SiteAt(lines, t, pre, post).Some?
    ensures var d := AtTarget(lines, t, pre, post);
            && d.Some? && d.value.next < |lines|
            && Join([prepend] + d.value.newLines + lines[d.value.next..])
               == Join(Whole(prepend) + Page(lines, SiteAt(lines, t, pre, post).value, Rest(prepend)))
  {
    var s, prev := SiteAt(lines, t, pre, post).value, PrevText(lines, t - 1).value;
    SitedAt(lines, t, pre, post);
    FrontAt(lines, t, pre, post, Rest(prepend));
    ElementAt(lines, t, pre, post);
    var m := Marked(lines[..t], prev, UseBraces(prev))[..s.first];
    var e := Element(s, Join(lines[s.first..s.next]));
    PageText(lines, s, Rest(prepend), m);
    JoinElements(prepend, m, e, lines[s.next..]);
    HeadText(prepend, Join(m), e, Join(lines[s.next..]), Page(lines, s, Rest(prepend)));
  }

  lemma PageFile(lines: seq<string>, t: nat, pre: string, post: string, prepend: string)
    requires FileLines(lines) && NoNewline(pre) && NoNewline(post)
    requires t < |lines| && SiteAt(lines, t, pre, post).Some?
    ensures FileLines(Whole(prepend) + Page(lines, SiteAt(lines, t, pre, post).value, Rest(prepend)))
  {
    var s := SiteAt(lines, t, pre, post).value;
    SitedAt(lines, t, pre, post);
    SiteShape(lines, t, pre, post);
    RestNoNewline(prepend, |prepend|);
    WholeLines(prepend, |prepend|);
    PageIsLines(lines, s, Rest(prepend));
    FileOf(Whole(prepend), Page(lines, s, Rest(prepend)));
  }

  /** Reading the file after an injection gives the prepended lines and the page of the site; the injection fails
      exactly where there is no site. */
  lemma InjectedPage(lines: seq<string>, t: nat, pre: string, post: string, prepend: string)
    requires FileLines(lines) && NoNewline(pre) && NoNewline(post) && t < |lines|
    ensures Injected(lines, t + 1, pre, post, prepend).Ok? <==> SiteAt(lines, t, pre, post).Some?
    ensures Injected(lines, t + 1, pre, post, prepend).Ok? ==>
      ReadLines(Join(Injected(lines, t + 1, pre, post, prepend).lines))
      == Whole(prepend) + Page(lines, SiteAt(lines, t, pre, post).value, Rest(prepend))
  {
    InjectedCases(lines, t + 1, pre, post, prepend);
    SiteElements(lines, t, pre, post);
    if SiteAt(lines, t, pre, post).Some? {
      WrittenText(lines, t, pre, post, prepend);
      PageFile(lines, t, pre, post, prepend);
      ReadJoin(Whole(prepend) + Page(lines, SiteAt(lines, t, pre, post).value, Rest(prepend)));
    }
  }
}
