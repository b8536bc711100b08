/** Wrapping, braces, and injecting several times into one file. */
module InjectTwice {
  import opened Options
  import opened Text
  import opened Inject
  import opened InjectPage
  import opened InjectKeeps
  import opened InjectSites

  // ---- the wrapped text

  /** What the target branch puts between the two strings. */
  function Body(lines: seq<string>, site: Site): string
    requires site.first <= site.next <= |lines|
  {
    var code := Join(lines[site.first..site.next]);
    if site.hash then Strip(code) + " " else code
  }

  lemma JoinContains(ls: seq<string>, i: nat)
    requires i < |ls|
    ensures Contains(Join(ls), ls[i])
  {
    Thirds(ls, i, i + 1);
    assert ls[i..i + 1] == [ls[i]];
    JoinOne(ls[i]);
    ContainsSelf(ls[i]);
    ContainsWithin(Join(ls[..i]), ls[i], Join(ls[i + 1..]), ls[i]);
  }

  lemma JoinContainsStripped(ls: seq<string>, i: nat)
    requires i < |ls|
    ensures Contains(Join(ls), Strip(ls[i])) && Contains(Strip(Join(ls)) + " ", Strip(ls[i]))
  {
    JoinContains(ls, i);
    ContainsStrip(ls[i]);
    ContainsTrans(Join(ls), ls[i], Strip(ls[i]));
    StrippedContains(Join(ls), ls[i]);
  }

  lemma StrippedContains(code: string, l: string)
    requires Contains(code, Strip(l))
    ensures Contains(Strip(code) + " ", Strip(l))
  {
    StripTrimmed(l);
    StripKeeps(code, Strip(l));
    ContainsWithin("", Strip(code), " ", Strip(l));
    assert "" + Strip(code) + " " == Strip(code) + " ";
  }

  /** The body holds the stripped text of every line of the statement. */
  lemma BodyContains(lines: seq<string>, site: Site, i: nat)
    requires site.first <= i < site.next <= |lines|
    ensures KeptAt(lines[i], Body(lines, site))
  {
    var ls := lines[site.first..site.next];
    assert ls[i - site.first] == lines[i];
    JoinContainsStripped(ls, i - site.first);
  }

  lemma ElementWraps(site: Site, code: string, post: string)
    requires StartsWith(site.closed, post)
    ensures Contains(Element(site, code), site.pre + (if site.hash then Strip(code) + " " else code) + post)
  {
    var body, end := if site.hash then Strip(code) + " " else code, if site.hash then "\n" else "";
    var rest := site.closed[|post|..] + end;
    assert site.closed == post + site.closed[|post|..];
    assert Element(site, code) == "" + (site.pre + body + post) + rest;
    ContainsSelf(site.pre + body + post);
    ContainsWithin("", site.pre + body + post, rest, site.pre + body + post);
  }

  /** The file written contains the two strings around a text that holds the whole statement of the target. */
  lemma InjectionWraps(lines: seq<string>, t: nat, pre: string, post: string, prepend: string)
    requires t < |lines| && Injected(lines, t + 1, pre, post, prepend).Ok?
    ensures SiteAt(lines, t, pre, post).Some?
    ensures var s := SiteAt(lines, t, pre, post).value;
            && s.first <= t < s.next <= |lines|
            && Contains(Join(Injected(lines, t + 1, pre, post, prepend).lines), pre + Body(lines, s) + post)
            && forall i :: s.first <= i < s.next ==> KeptAt(lines[i], Body(lines, s))
  {
    InjectedCases(lines, t + 1, pre, post, prepend);
    SiteElements(lines, t, pre, post);
    SiteShape(lines, t, pre, post);
    ElementAt(lines, t, pre, post);
    var s, d := SiteAt(lines, t, pre, post).value, AtTarget(lines, t, pre, post).value;
    forall i | s.first <= i < s.next ensures KeptAt(lines[i], Body(lines, s)) {
      BodyContains(lines, s, i);
    }
    var code := Join(lines[s.first..s.next]);
    var m := d.newLines[..s.first];
    assert d.newLines == m + [Element(s, code)];
    ElementWraps(s, code, post);
    JoinElements(prepend, m, Element(s, code), lines[d.next..]);
    ContainsWithin(prepend + Join(m), Element(s, code), Join(lines[d.next..]), pre + Body(lines, s) + post);
  }

  // ---- several injections into one file

  datatype Job = Job(line: int, pre: string, post: string, prepend: string)

  ghost predicate Inline(j: Job) { NoNewline(j.pre) && NoNewline(j.post) }

  /** The lines a later reader finds after one injection. */
  function After(lines: seq<string>, j: Job): Option<seq<string>> {
    match Injected(lines, j.line, j.pre, j.post, j.prepend)
    case Ok(elements) => Some(ReadLines(Join(elements)))
    case IndexError => None
  }

  /** One injection after the other, each reading what the one before wrote. */
  function AfterAll(lines: seq<string>, jobs: seq<Job>): Option<seq<string>>
    decreases |jobs|
  {
    if jobs == [] then Some(lines)
    else match After(lines, jobs[0])
      case None => None
      case Some(next) => AfterAll(next, jobs[1..])
  }

  function Shift(jobs: seq<Job>): nat { if jobs == [] then 0 else |Whole(jobs[0].prepend)| + Shift(jobs[1..]) }

  lemma KeptSelf(lines: seq<string>)
    ensures Kept(lines, lines, 0)
  {
    forall i | 0 <= i < |lines| ensures KeptAt(lines[i], lines[0 + i]) {
      ContainsStrip(lines[i]);
    }
  }

  lemma KeptAtTwice(l: string, m: string, o: string)
    requires KeptAt(l, m) && KeptAt(m, o)
    ensures KeptAt(l, o)
  {
    StripTrimmed(l);
    StripKeeps(m, Strip(l));
    ContainsTrans(o, Strip(m), Strip(l));
  }

  lemma KeptTwice(lines: seq<string>, mid: seq<string>, out: seq<string>, c: nat, d: nat)
    requires Kept(lines, mid, c) && Kept(mid, out, d)
    ensures Kept(lines, out, c + d)
  {
    forall i | 0 <= i < |lines| ensures KeptAt(lines[i], out[c + d + i]) {
      assert KeptAt(mid[c + i], out[d + (c + i)]);
      KeptAtTwice(lines[i], mid[c + i], out[d + (c + i)]);
    }
  }

  lemma AfterShape(lines: seq<string>, j: Job)
    requires After(lines, j).Some?
    ensures FileLines(After(lines, j).value)
  {
    ReadLinesShape(Join(Injected(lines, j.line, j.pre, j.post, j.prepend).lines));
  }

  lemma GluedKept(lines: seq<string>, head: seq<string>, r: string)
    requires lines != []
    ensures Kept(lines, head + ([r + lines[0]] + lines[1..]), |head|)
  {
    var page := [r + lines[0]] + lines[1..];
    forall i | 0 <= i < |lines| ensures KeptAt(lines[i], (head + page)[|head| + i]) {
      assert (head + page)[|head| + i] == page[i];
      ContainsStrip(lines[i]);
      ContainsAfter(r, lines[i], Strip(lines[i]));
    }
  }

  lemma AfterKeepsOutside(lines: seq<string>, j: Job)
    requires FileLines(lines) && lines != [] && !(1 <= j.line <= |lines|)
    ensures After(lines, j).Some? && Kept(lines, After(lines, j).value, |Whole(j.prepend)|)
  {
    OutsideKeeps(lines, j.line, j.pre, j.post, j.prepend);
    GluedKept(lines, Whole(j.prepend), Rest(j.prepend));
  }

  lemma AfterIs(lines: seq<string>, t: nat, j: Job)
    requires j.line == t + 1 && After(lines, j).Some?
    ensures var r := Injected(lines, t + 1, j.pre, j.post, j.prepend);
            r.Ok? && After(lines, j).value == ReadLines(Join(r.lines))
  {
  }

  lemma AfterKeepsInside(lines: seq<string>, t: nat, j: Job)
    requires FileLines(lines) && Inline(j) && t < |lines| && j.line == t + 1 && After(lines, j).Some?
    ensures Kept(lines, After(lines, j).value, |Whole(j.prepend)|)
  {
    AfterIs(lines, t, j);
    InjectionKeeps(lines, t, j.pre, j.post, j.prepend);
  }

  lemma AfterKeeps(lines: seq<string>, j: Job)
    requires FileLines(lines) && lines != [] && Inline(j) && After(lines, j).Some?
    ensures Kept(lines, After(lines, j).value, |Whole(j.prepend)|)
  {
    if 1 <= j.line <= |lines| {
      AfterKeepsInside(lines, j.line - 1, j);
    } else {
      AfterKeepsOutside(lines, j);
    }
  }

  ghost predicate AllInline(jobs: seq<Job>) { forall i :: 0 <= i < |jobs| ==> Inline(jobs[i]) }

  lemma AllInlineTail(jobs: seq<Job>)
    requires jobs != [] && AllInline(jobs)
    ensures Inline(jobs[0]) && AllInline(jobs[1..])
  {
  }

  lemma ShiftNext(jobs: seq<Job>)
    requires jobs != []
    ensures Shift(jobs) == |Whole(jobs[0].prepend)| + Shift(jobs[1..])
  {
  }

  /** However many injections are made into a file, every original line keeps its order, its stripped text and its
      line number, moved only by the newlines of the prepended texts. */
  lemma {:induction false} AllKept(lines: seq<string>, jobs: seq<Job>)
    requires FileLines(lines) && lines != [] && AllInline(jobs)
    requires AfterAll(lines, jobs).Some?
    ensures Kept(lines, AfterAll(lines, jobs).value, Shift(jobs))
    decreases |jobs|
  {
    if jobs == [] {
      KeptSelf(lines);
    } else {
      AllInlineTail(jobs);
      AfterShape(lines, jobs[0]);
      AfterKeeps(lines, jobs[0]);
      AllKept(After(lines, jobs[0]).value, jobs[1..]);
      ShiftNext(jobs);
      KeptTwice(lines, After(lines, jobs[0]).value, AfterAll(lines, jobs).value,
        |Whole(jobs[0].prepend)|, Shift(jobs[1..]));
    }
  }

  // ---- the dropping site, then the origin site

  /** The first wrapped line of the page starts the wrapping. */
  lemma PreOnPage(lines: seq<string>, site: Site, lead: string)
    requires Sited(lines, site)
    ensures Contains(PageLine(lines, site, lead, site.first), site.pre)
  {
    var l, r := lines[site.first], Carry(site, lead, site.first);
    var rest := if !site.hash then l
                else if site.first + 1 == site.next then Closing(Strip(l), site)
                else LeftStripped(l);
    ContainsSelf(site.pre);
    ContainsWithin(r, site.pre, rest, site.pre);
  }

  /** Moved down by c lines, line i holds the text put in front of the statement. */
  ghost predicate PreOn(out: seq<string>, c: nat, i: nat, pre: string) { c + i < |out| && KeptAt(pre, out[c + i]) }

  /** The text put in front of the statement is on the line of the target or the line before. */
  lemma PreOnLine(lines: seq<string>, t: nat, j: Job) returns (first: nat)
    requires FileLines(lines) && Inline(j) && j.line == t + 1 && t < |lines| && After(lines, j).Some?
    ensures t - 1 <= first <= t && PreOn(After(lines, j).value, |Whole(j.prepend)|, first, j.pre)
  {
    InjectedPage(lines, t, j.pre, j.post, j.prepend);
    SitedAt(lines, t, j.pre, j.post);
    SiteShape(lines, t, j.pre, j.post);
    var s := SiteAt(lines, t, j.pre, j.post).value;
    first := s.first;
    PreOnPage(lines, s, Rest(j.prepend));
    assert After(lines, j).value[|Whole(j.prepend)| + s.first] == PageLine(lines, s, Rest(j.prepend), s.first);
    ContainsStrip(j.pre);
    ContainsTrans(PageLine(lines, s, Rest(j.prepend), s.first), j.pre, Strip(j.pre));
  }

  /** The target line's text is inside what the injection wraps. */
  ghost predicate Wraps(text: string, j: Job, body: string, l: string) {
    Contains(text, j.pre + body + j.post) && KeptAt(l, body)
  }

  function WrittenBy(lines: seq<string>, j: Job): string {
    match Injected(lines, j.line, j.pre, j.post, j.prepend)
    case Ok(elements) => Join(elements)
    case IndexError => ""
  }

  lemma JobWraps(lines: seq<string>, t: nat, j: Job)
    requires t < |lines| && j.line == t + 1 && After(lines, j).Some?
    ensures exists body :: Wraps(WrittenBy(lines, j), j, body, lines[t])
  {
    InjectionWraps(lines, t, j.pre, j.post, j.prepend);
    assert Wraps(WrittenBy(lines, j), j, Body(lines, SiteAt(lines, t, j.pre, j.post).value), lines[t]);
  }

  lemma WrapsThrough(text: string, j: Job, l: string, m: string)
    requires KeptAt(l, m) && exists body :: Wraps(text, j, body, m)
    ensures exists body :: Wraps(text, j, body, l)
  {
    var body :| Wraps(text, j, body, m);
    KeptAtTwice(l, m, body);
    assert Wraps(text, j, body, l);
  }

  lemma DropKeeps(lines: seq<string>, drop: Job, mid: seq<string>)
    requires FileLines(lines) && lines != [] && Inline(drop) && drop.prepend == "" && After(lines, drop) == Some(mid)
    ensures FileLines(mid) && Kept(lines, mid, 0) && |mid| == |lines|
  {
    AfterShape(lines, drop);
    AfterKeeps(lines, drop);
    assert Whole("") == [];
  }

  /** Injecting at the dropping site and then at the origin site of the same file, where only the second may prepend
      lines: every line keeps its number up to the newlines of the prepended text. */
  lemma TwoSitesKeep(lines: seq<string>, drop: Job, mid: seq<string>, origin: Job, out: seq<string>)
    requires FileLines(lines) && lines != [] && Inline(drop) && Inline(origin) && drop.prepend == ""
    requires After(lines, drop) == Some(mid) && After(mid, origin) == Some(out)
    ensures Kept(lines, out, |Whole(origin.prepend)|)
  {
    DropKeeps(lines, drop, mid);
    AfterKeeps(mid, origin);
    KeptTwice(lines, mid, out, 0, |Whole(origin.prepend)|);
  }

  lemma PreStays(mid: seq<string>, out: seq<string>, c: nat, i: nat, pre: string)
    requires Kept(mid, out, c) && PreOn(mid, 0, i, pre)
    ensures PreOn(out, c, i, pre)
  {
    KeptAtTwice(pre, mid[i], out[c + i]);
  }

  /** The first injection stays on its line through the second. */
  lemma DroppingStays(lines: seq<string>, d: nat, drop: Job, mid: seq<string>, origin: Job, out: seq<string>)
    requires FileLines(lines) && d < |lines| && Inline(drop) && Inline(origin)
    requires drop.line == d + 1 && drop.prepend == ""
    requires After(lines, drop) == Some(mid) && After(mid, origin) == Some(out)
    ensures exists first: nat :: d - 1 <= first <= d && PreOn(out, |Whole(origin.prepend)|, first, drop.pre)
  {
    DropKeeps(lines, drop, mid);
    AfterKeeps(mid, origin);
    var first := PreOnLine(lines, d, drop);
    assert Whole(drop.prepend) == [];
    PreStays(mid, out, |Whole(origin.prepend)|, first, drop.pre);
  }

  /** Both injections wrap the original text of their requested line. */
  lemma TwoSitesWrap(lines: seq<string>, d: nat, drop: Job, mid: seq<string>, o: nat, origin: Job)
    requires FileLines(lines) && d < |lines| && o < |lines| && Inline(drop)
    requires drop.line == d + 1 && origin.line == o + 1 && drop.prepend == ""
    requires After(lines, drop) == Some(mid) && After(mid, origin).Some?
    ensures exists body :: Wraps(WrittenBy(lines, drop), drop, body, lines[d])
    ensures exists body :: Wraps(WrittenBy(mid, origin), origin, body, lines[o])
  {
    DropKeeps(lines, drop, mid);
    JobWraps(lines, d, drop);
    JobWraps(mid, o, origin);
    assert KeptAt(lines[o], mid[0 + o]);
    WrapsThrough(WrittenBy(mid, origin), origin, lines[o], mid[o]);
  }
}
