/** The page one injection writes, line by line: an independent description of __inject_line's result. */
module InjectPage {
  import opened Options
  import opened Text
  import opened Inject
  import opened InjectLines

  /** One injection: lines first to next - 1 are wrapped between pre and closed, line brace gets the opening brace
      (none when brace is negative), and hash says that line next is a preprocessor line. */
  datatype Site = Site(brace: int, first: nat, next: nat, hash: bool, pre: string, closed: string)

  /** The line that gets the opening brace. */
  function BraceLine(before: seq<string>, prev: string): int {
    if UseBraces(prev) && FirstIndex(before, prev) < |before| then FirstIndex(before, prev) else -1
  }

  function SiteAt(lines: seq<string>, t: nat, pre: string, post: string): Option<Site>
    requires t < |lines|
  {
    match PrevText(lines, t - 1)
    case None => None
    case Some(prev) => SiteAfter(lines, t, prev, pre, post)
  }

  function SiteAfter(lines: seq<string>, t: nat, prev: string, pre: string, post: string): Option<Site>
    requires t < |lines|
  {
    var first := FirstLine(Marked(lines[..t], prev, UseBraces(prev)));
    match Statement(lines, first)
    case None => None
    case Some(e) =>
      if e.last + 1 >= |lines| then None
      else Some(Site(BraceLine(lines[..t], prev), first, e.last + 1, StartsIn(lines[e.last + 1], '#'),
                     pre, post + if UseBraces(prev) then " }" else ""))
  }

  // ---- the page

  /** What stands on line i before its own text. */
  function Carry(site: Site, lead: string, i: nat): string {
    (if i == 0 then lead else "") + if site.brace >= 0 && i == site.brace + 1 then " {" else ""
  }

  /** The last wrapped line when a preprocessor line follows: it takes the closing text with it. */
  function Closing(body: string, site: Site): string { body + " " + site.closed + "\n" }

  function PageLine(lines: seq<string>, site: Site, lead: string, i: nat): string
    requires i < |lines|
  {
    var l, r := lines[i], Carry(site, lead, i);
    if i < site.first || i > site.next then r + l
    else if i == site.next then if site.hash then l else site.closed + l
    else
      var b := if i == site.first then r + site.pre else "";
      if !site.hash then b + l
      else if site.first + 1 == site.next then b + Closing(Strip(l), site)
      else if i == site.first then b + LeftStripped(l)
      else if i + 1 == site.next then b + Closing(RightStripped(l), site)
      else b + l
  }

  function Page(lines: seq<string>, site: Site, lead: string): seq<string> {
    seq(|lines|, i requires 0 <= i < |lines| => PageLine(lines, site, lead, i))
  }

  // ---- where the site is

  lemma MarkedAt(lines: seq<string>, t: nat, prev: string, i: nat)
    requires i < t <= |lines|
    ensures Marked(lines[..t], prev, UseBraces(prev))[i] ==
      lines[i] + if i == BraceLine(lines[..t], prev) then " {" else ""
  {
    assert lines[i] + "" == lines[i];
  }

  /** The wrapped lines are around the target; the brace is before them. */
  lemma SiteShape(lines: seq<string>, t: nat, pre: string, post: string)
    requires t < |lines| && SiteAt(lines, t, pre, post).Some?
    ensures var s := SiteAt(lines, t, pre, post).value;
            && t - 1 <= s.first <= t < s.next < |lines|
            && -1 <= s.brace < s.first
            && s.pre == pre && StartsWith(s.closed, post)
            && s.hash == StartsIn(lines[s.next], '#')
            && (s.first < t ==> EndsIn(lines[s.first], '='))
  {
    var prev := PrevText(lines, t - 1).value;
    var s := SiteAt(lines, t, pre, post).value;
    SteppedBack(lines, t, prev, UseBraces(prev));
    if 0 <= s.brace {
      MarkedAt(lines, t, prev, s.brace);
      NoBraceAdded(lines[s.brace]);
    }
  }

  lemma NoBraceAdded(l: string)
    ensures l + " {" != l
  {
    assert |l + " {"| == |l| + 2;
  }

  /** The elements written are the ones the site describes. */
  lemma SiteElements(lines: seq<string>, t: nat, pre: string, post: string)
    requires t < |lines|
    ensures SiteAt(lines, t, pre, post).Some? <==> AtTarget(lines, t, pre, post).Some?
    ensures SiteAt(lines, t, pre, post).Some? ==>
      var s, prev := SiteAt(lines, t, pre, post).value, PrevText(lines, t - 1).value;
      && Statement(lines, s.first).Some? && Statement(lines, s.first).value.last + 1 == s.next < |lines|
      && s.first <= t && s.brace == BraceLine(lines[..t], prev)
      && s.pre == pre && s.closed == post + (if UseBraces(prev) then " }" else "")
      && s.hash == StartsIn(lines[s.next], '#')
      && AtTarget(lines, t, pre, post).value.next == s.next
      && AtTarget(lines, t, pre, post).value.newLines ==
         Marked(lines[..t], prev, UseBraces(prev))[..s.first]
         + [Wrapped(pre, Statement(lines, s.first).value.code, post, UseBraces(prev), lines[s.next])]
  {
  }

  // ---- the text of the page, part by part

  ghost predicate Front(m: seq<string>, lines: seq<string>, page: seq<string>, site: Site, lead: string) {
    && |m| <= |lines| && |m| <= |page|
    && forall i :: 0 <= i < |m| ==> FrontLine(m[i], lines[i], page[i], site, lead, i)
  }

  /** e is the element for line l before the statement, onPage the line it becomes. */
  ghost predicate FrontLine(e: string, l: string, onPage: string, site: Site, lead: string, i: nat) {
    e == l + (if i == site.brace then " {" else "") && onPage == Carry(site, lead, i) + l
  }

  lemma FrontStep(a: string, b: string, e: string, l: string, onPage: string, site: Site, lead: string, i: nat)
    requires FrontLine(e, l, onPage, site, lead, i) && a + Carry(site, lead, i) == lead + b
    ensures (a + onPage) + Carry(site, lead, i + 1) == lead + (b + e)
  {
    var c := if i == site.brace then " {" else "";
    assert c == Carry(site, lead, i + 1);
    FrontRegroup(a, Carry(site, lead, i), l, c);
    Regroup(lead, b, l + c);
  }

  lemma FrontRegroup(a: string, r: string, l: string, c: string)
    ensures a + (r + l) + c == (a + r) + (l + c)
  {
  }

  /** An opening brace is written on the line it follows and read on the next. */
  lemma {:induction false} FrontText(
    m: seq<string>, lines: seq<string>, page: seq<string>, site: Site, lead: string, k: nat)
    requires Front(m, lines, page, site, lead) && k <= |m|
    ensures Join(page[..k]) + Carry(site, lead, k) == lead + Join(m[..k])
  {
    if k == 0 {
      assert Join(page[..k]) == "" && Join(m[..k]) == "";
      assert "" + Carry(site, lead, 0) == lead == lead + "";
    } else {
      FrontText(m, lines, page, site, lead, k - 1);
      assert page[..k][..k - 1] == page[..k - 1] && m[..k][..k - 1] == m[..k - 1];
      FrontStep(Join(page[..k - 1]), Join(m[..k - 1]), m[k - 1], lines[k - 1], page[k - 1], site, lead, k - 1);
    }
  }

  /** A carry before the first of some lines. */
  lemma CarriedText(r: string, ls: seq<string>)
    requires ls != []
    ensures Join([r + ls[0]] + ls[1..]) == r + Join(ls)
  {
    JoinFirst(ls);
    JoinConcat([r + ls[0]], ls[1..]);
    JoinOne(r + ls[0]);
    Regroup(r, ls[0], Join(ls[1..]));
  }

  lemma StrippedJoin(ls: seq<string>)
    requires |ls| >= 2 && !Blank(ls[0]) && !Blank(ls[|ls| - 1])
    ensures Strip(Join(ls)) == LeftStripped(ls[0]) + Join(ls[1..|ls| - 1]) + RightStripped(ls[|ls| - 1])
  {
    var mid, last := ls[1..|ls| - 1], ls[|ls| - 1];
    var init := ls[..|ls| - 1];
    JoinFirst(init);
    assert init[1..] == mid && init[0] == ls[0];
    assert Join(ls) == ls[0] + Join(mid) + last;
    StripAround(ls[0], Join(mid), last);
  }

  /** The wrapped lines before a preprocessor line. */
  function HashLines(ls: seq<string>, r: string, site: Site): seq<string>
    requires ls != []
  {
    if |ls| == 1 then [r + site.pre + Closing(Strip(ls[0]), site)]
    else [r + site.pre + LeftStripped(ls[0])] + ls[1..|ls| - 1] + [Closing(RightStripped(ls[|ls| - 1]), site)]
  }

  lemma RegroupOne(r: string, a: string, site: Site)
    ensures r + site.pre + Closing(a, site) == r + (site.pre + (a + " ") + (site.closed + "\n"))
  {
  }

  lemma RegroupMany(r: string, a: string, m: string, b: string, site: Site)
    ensures (r + site.pre + a) + m + Closing(b, site)
         == r + (site.pre + ((a + m + b) + " ") + (site.closed + "\n"))
  {
  }

  lemma HashTextOne(l: string, r: string, site: Site)
    ensures Join(HashLines([l], r, site)) == r + (site.pre + (Strip(Join([l])) + " ") + (site.closed + "\n"))
  {
    JoinOne(l);
    JoinOne(r + site.pre + Closing(Strip(l), site));
    RegroupOne(r, Strip(l), site);
  }

  lemma HashTextMany(ls: seq<string>, r: string, site: Site)
    requires |ls| >= 2 && !Blank(ls[0]) && !Blank(ls[|ls| - 1])
    ensures Join(HashLines(ls, r, site)) == r + (site.pre + (Strip(Join(ls)) + " ") + (site.closed + "\n"))
  {
    StrippedJoin(ls);
    var a, m, b := LeftStripped(ls[0]), ls[1..|ls| - 1], RightStripped(ls[|ls| - 1]);
    HashParts(r + site.pre + a, m, Closing(b, site));
    RegroupMany(r, a, Join(m), b, site);
  }

  lemma HashParts(a: string, mid: seq<string>, b: string)
    ensures Join([a] + mid + [b]) == a + Join(mid) + b
  {
    JoinConcat([a] + mid, [b]);
    JoinConcat([a], mid);
    JoinOne(a);
    JoinOne(b);
  }
}
