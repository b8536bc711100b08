/** The dropping site's text in front, its statement and its text behind stay in this order through later injections. */
module InjectOrder {
  import opened Options
  import opened Text
  import opened InjectPage
  import opened InjectKeeps
  import opened InjectSites
  import opened InjectTwice

  // ---- texts that follow each other

  /** The parts occur in s one after the other. */
  ghost predicate InOrder(s: string, parts: seq<string>)
    decreases |parts|, 1
  {
    parts == [] || exists i: nat :: i <= |s| && PartAt(s, parts, i)
  }

  ghost predicate PartAt(s: string, parts: seq<string>, i: nat)
    requires parts != [] && i <= |s|
    decreases |parts|, 0
  {
    OccursAt(s, parts[0], i) && InOrder(s[i + |parts[0]|..], parts[1..])
  }

  lemma InOrderLater(s: string, k: nat, parts: seq<string>)
    requires k <= |s| && InOrder(s[k..], parts)
    ensures InOrder(s, parts)
  {
    if parts != [] {
      var i: nat :| i <= |s[k..]| && PartAt(s[k..], parts, i);
      var n := |parts[0]|;
      assert s[k..][i..i + n] == s[k + i..k + i + n] && s[k..][i + n..] == s[k + i + n..];
      assert PartAt(s, parts, k + i);
    }
  }

  lemma {:induction false} InOrderConcat(a: string, p: seq<string>, b: string, q: seq<string>)
    requires InOrder(a, p) && InOrder(b, q)
    ensures InOrder(a + b, p + q)
    decreases |p|
  {
    if p == [] {
      assert (a + b)[|a|..] == b && p + q == q;
      InOrderLater(a + b, |a|, q);
    } else {
      var i: nat :| i <= |a| && PartAt(a, p, i);
      var n := i + |p[0]|;
      InOrderConcat(a[n..], p[1..], b, q);
      assert (a + b)[n..] == a[n..] + b && (a + b)[i..n] == a[i..n];
      assert (p + q)[1..] == p[1..] + q && (p + q)[0] == p[0];
      assert PartAt(a + b, p + q, i);
    }
  }

  lemma InOrderWithin(x: string, s: string, y: string, parts: seq<string>)
    requires InOrder(s, parts)
    ensures InOrder(x + s + y, parts)
  {
    InOrderConcat(x, [], s, parts);
    InOrderConcat(x + s, [] + parts, y, []);
    assert [] + parts + [] == parts;
  }

  lemma InOrderContained(o: string, s: string, parts: seq<string>)
    requires Contains(o, s) && InOrder(s, parts)
    ensures InOrder(o, parts)
  {
    var i: nat :| i <= |o| && OccursAt(o, s, i);
    assert o == o[..i] + s + o[i + |s|..];
    InOrderWithin(o[..i], s, o[i + |s|..], parts);
  }

  lemma InOrderOne(s: string, t: string)
    requires Contains(s, t)
    ensures InOrder(s, [t])
  {
    var i: nat :| i <= |s| && OccursAt(s, t, i);
    assert [t][1..] == [];
    assert PartAt(s, [t], i);
  }

  // ---- strip keeps the order

  ghost predicate AllTrimmed(parts: seq<string>) { forall i :: 0 <= i < |parts| ==> Trimmed(parts[i]) }

  lemma AllTrimmedTail(parts: seq<string>)
    requires parts != [] && AllTrimmed(parts)
    ensures Trimmed(parts[0]) && AllTrimmed(parts[1..])
  {
  }

  lemma EmptyPart(s: string, parts: seq<string>)
    requires parts != [] && parts[0] == "" && InOrder(s, parts[1..])
    ensures InOrder(s, parts)
  {
    assert s[0..] == s;
    assert PartAt(s, parts, 0);
  }

  lemma SkipEmptyPart(s: string, parts: seq<string>)
    requires parts != [] && InOrder(s, parts)
    ensures InOrder(s, parts[1..])
  {
    var i: nat :| i <= |s| && PartAt(s, parts, i);
    InOrderLater(s, i + |parts[0]|, parts[1..]);
  }

  lemma EdgeChars(s: string, t: string, i: nat)
    requires OccursAt(s, t, i) && t != ""
    ensures s[i] == t[0] && s[i + |t| - 1] == t[|t| - 1]
  {
    assert s[i..i + |t|][0] == s[i] && s[i..i + |t|][|t| - 1] == s[i + |t| - 1];
  }

  lemma {:induction false} DropLead(s: string, k: nat, parts: seq<string>)
    requires k <= |s| && BlankIn(s, 0, k) && AllTrimmed(parts) && InOrder(s, parts)
    ensures InOrder(s[k..], parts)
    decreases |parts|
  {
    if parts != [] {
      AllTrimmedTail(parts);
      if parts[0] == "" {
        SkipEmptyPart(s, parts);
        DropLead(s, k, parts[1..]);
        EmptyPart(s[k..], parts);
      } else {
        var i: nat :| i <= |s| && PartAt(s, parts, i);
        var n := |parts[0]|;
        EdgeChars(s, parts[0], i);
        assert s[k..][i - k..i - k + n] == s[i..i + n] && s[k..][i - k + n..] == s[i + n..];
        assert PartAt(s[k..], parts, i - k);
      }
    }
  }

  lemma {:induction false} DropTail(s: string, m: nat, parts: seq<string>)
    requires m <= |s| && BlankIn(s, m, |s|) && AllTrimmed(parts) && InOrder(s, parts)
    ensures InOrder(s[..m], parts)
    decreases |parts|
  {
    if parts != [] {
      AllTrimmedTail(parts);
      if parts[0] == "" {
        SkipEmptyPart(s, parts);
        DropTail(s, m, parts[1..]);
        EmptyPart(s[..m], parts);
      } else {
        var i: nat :| i <= |s| && PartAt(s, parts, i);
        var n := i + |parts[0]|;
        EdgeChars(s, parts[0], i);
        DropTail(s[n..], m - n, parts[1..]);
        assert s[..m][n..] == s[n..][..m - n] && s[..m][i..n] == s[i..n];
        assert PartAt(s[..m], parts, i);
      }
    }
  }

  lemma StripInOrder(s: string, parts: seq<string>)
    requires AllTrimmed(parts) && InOrder(s, parts)
    ensures InOrder(Strip(s), parts)
  {
    EdgesMeaning(s);
    if Blank(s) {
      DropLead(s, |s|, parts);
      assert s[|s|..] == "";
    } else {
      DropTail(s, End(s), parts);
      DropLead(s[..End(s)], Lead(s), parts);
      assert s[..End(s)][Lead(s)..] == Strip(s);
    }
  }

  lemma KeptInOrder(m: string, o: string, parts: seq<string>)
    requires KeptAt(m, o) && AllTrimmed(parts) && InOrder(m, parts)
    ensures InOrder(o, parts)
  {
    StripInOrder(m, parts);
    InOrderContained(o, Strip(m), parts);
  }

  // ---- what stands on the lines of the page

  /** The line the closing text is on: with the statement before a preprocessor line, otherwise on the next line. */
  function EndLine(site: Site): int { if site.hash then site.next - 1 else site.next }

  function When(b: bool, s: string): seq<string> { if b then [Strip(s)] else [] }

  /** What stands on line i of the text in front, the text of line d and the text behind. */
  function PartsOn(site: Site, l: string, d: nat, post: string, i: nat): seq<string> {
    When(i == site.first, site.pre) + When(i == d, l) + When(i == EndLine(site), post)
  }

  lemma WhenInOrder(s: string, b: bool, t: string)
    requires b ==> Contains(s, Strip(t))
    ensures InOrder(s, When(b, t))
  {
    if b {
      InOrderOne(s, Strip(t));
    }
  }

  lemma PrefixIs(s: string, p: string)
    requires StartsWith(s, p)
    ensures s == p + s[|p|..]
  {
  }

  lemma ClosedHas(site: Site, post: string)
    requires StartsWith(site.closed, post)
    ensures Contains(site.closed, Strip(post))
  {
    PrefixIs(site.closed, post);
    ContainsStrip(post);
    ContainsWithin("", post, site.closed[|post|..], Strip(post));
    assert "" + post == post;
  }

  /** A wrapped line: the text in front, then the line, then the text behind. */
  lemma WrappedInOrder(
    r: string, pre: string, first: bool, body: string, own: bool, l: string, tail: string, last: bool, post: string)
    requires own ==> Contains(body, Strip(l))
    requires last ==> Contains(tail, Strip(post))
    ensures InOrder((if first then r + pre else "") + body + tail, When(first, pre) + When(own, l) + When(last, post))
  {
    var b := if first then r + pre else "";
    if first {
      ContainsStrip(pre);
      ContainsAfter(r, pre, Strip(pre));
    }
    WhenInOrder(b, first, pre);
    WhenInOrder(body, own, l);
    WhenInOrder(tail, last, post);
    InOrderConcat(b, When(first, pre), body, When(own, l));
    InOrderConcat(b + body, When(first, pre) + When(own, l), tail, When(last, post));
  }

  /** What the wrapped line i is made of. */
  function BodyOn(lines: seq<string>, site: Site, i: nat): string
    requires i < |lines|
  {
    if !site.hash then lines[i]
    else if site.first + 1 == site.next then Strip(lines[i])
    else if i == site.first then LeftStripped(lines[i])
    else if i + 1 == site.next then RightStripped(lines[i])
    else lines[i]
  }

  function TailOn(site: Site, i: nat): string {
    if site.hash && i + 1 == site.next then " " + site.closed + "\n" else ""
  }

  lemma WrappedLineIs(lines: seq<string>, site: Site, lead: string, i: nat)
    requires Sited(lines, site) && site.first <= i < site.next
    ensures PageLine(lines, site, lead, i) ==
      (if i == site.first then Carry(site, lead, i) + site.pre else "") + BodyOn(lines, site, i) + TailOn(site, i)
  {
    var b := if i == site.first then Carry(site, lead, i) + site.pre else "";
    var x := BodyOn(lines, site, i);
    assert b + x + "" == b + x;
    assert b + Closing(x, site) == b + x + (" " + site.closed + "\n");
  }

  lemma BodyOnHolds(lines: seq<string>, site: Site, i: nat)
    requires i < |lines|
    ensures Contains(BodyOn(lines, site, i), Strip(lines[i]))
  {
    EdgesKept(lines[i]);
    ContainsSelf(Strip(lines[i]));
  }

  lemma TailOnHolds(site: Site, i: nat, post: string)
    requires StartsWith(site.closed, post) && i < site.next
    ensures i == EndLine(site) ==> Contains(TailOn(site, i), Strip(post))
  {
    ClosedHas(site, post);
    ContainsWithin(" ", site.closed, "\n", Strip(post));
  }

  lemma StatementLineInOrder(lines: seq<string>, site: Site, lead: string, d: nat, post: string, i: nat)
    requires Sited(lines, site) && site.first <= d < site.next && StartsWith(site.closed, post)
    requires site.first <= i < site.next
    ensures InOrder(PageLine(lines, site, lead, i), PartsOn(site, lines[d], d, post, i))
  {
    WrappedLineIs(lines, site, lead, i);
    BodyOnHolds(lines, site, i);
    TailOnHolds(site, i, post);
    WrappedInOrder(Carry(site, lead, i), site.pre, i == site.first, BodyOn(lines, site, i), i == d, lines[d],
      TailOn(site, i), i == EndLine(site), post);
  }

  lemma ClosedInOrder(site: Site, post: string, l: string)
    requires StartsWith(site.closed, post)
    ensures InOrder(site.closed + l, [Strip(post)])
  {
    ClosedHas(site, post);
    InOrderOne(site.closed, Strip(post));
    InOrderConcat(site.closed, [Strip(post)], l, []);
    assert [Strip(post)] + [] == [Strip(post)];
  }

  lemma OnlyEnd(site: Site, l: string, d: nat, post: string, i: nat)
    requires i != site.first && i != d
    ensures PartsOn(site, l, d, post, i) == if i == EndLine(site) then [Strip(post)] else []
  {
  }

  lemma NextLineInOrder(lines: seq<string>, site: Site, lead: string, l: string, d: nat, post: string)
    requires Sited(lines, site) && d < site.next && StartsWith(site.closed, post)
    ensures InOrder(PageLine(lines, site, lead, site.next), PartsOn(site, l, d, post, site.next))
  {
    OnlyEnd(site, l, d, post, site.next);
    if !site.hash {
      PageTailAt(lines, site, lead, site.next);
      ClosedInOrder(site, post, lines[site.next]);
    }
  }

  lemma PageLineInOrder(lines: seq<string>, site: Site, lead: string, d: nat, post: string, i: nat)
    requires Sited(lines, site) && site.first <= d < site.next && i < |lines| && StartsWith(site.closed, post)
    ensures InOrder(PageLine(lines, site, lead, i), PartsOn(site, lines[d], d, post, i))
  {
    if site.first <= i < site.next {
      StatementLineInOrder(lines, site, lead, d, post, i);
    } else if i == site.next {
      NextLineInOrder(lines, site, lead, lines[d], d, post);
    } else {
      OnlyEnd(site, lines[d], d, post, i);
    }
  }

  // ---- the whole file

  /** What stands on the first n lines. */
  function PartsUpTo(site: Site, l: string, d: nat, post: string, n: nat): seq<string> {
    if n == 0 then [] else PartsUpTo(site, l, d, post, n - 1) + PartsOn(site, l, d, post, n - 1)
  }

  lemma Merge(a: seq<string>, b: seq<string>, c: seq<string>, x: seq<string>, y: seq<string>, z: seq<string>)
    requires (x != [] ==> b == [] && c == []) && (y != [] ==> c == [])
    ensures (a + b + c) + (x + y + z) == (a + x) + (b + y) + (c + z)
  {
    if x != [] {
      assert a + b + c == a;
    } else if y != [] {
      assert a + b + c == a + b;
    } else {
      assert x + y + z == z;
    }
  }

  lemma WhenNext(x: int, n: nat, s: string)
    ensures When(x < n, s) + When(n == x, s) == When(x < n + 1, s)
  {
  }

  lemma PartsNext(site: Site, l: string, d: nat, post: string, m: nat)
    requires site.first <= d <= EndLine(site)
    ensures When(site.first < m, site.pre) + When(d < m, l) + When(EndLine(site) < m, post)
         + PartsOn(site, l, d, post, m)
         == When(site.first < m + 1, site.pre) + When(d < m + 1, l) + When(EndLine(site) < m + 1, post)
  {
    Merge(When(site.first < m, site.pre), When(d < m, l), When(EndLine(site) < m, post),
      When(m == site.first, site.pre), When(m == d, l), When(m == EndLine(site), post));
    WhenNext(site.first, m, site.pre);
    WhenNext(d, m, l);
    WhenNext(EndLine(site), m, post);
  }

  lemma {:induction false} PartsUpToIs(site: Site, l: string, d: nat, post: string, n: nat)
    requires site.first <= d <= EndLine(site)
    ensures PartsUpTo(site, l, d, post, n)
         == When(site.first < n, site.pre) + When(d < n, l) + When(EndLine(site) < n, post)
  {
    if n > 0 {
      PartsUpToIs(site, l, d, post, n - 1);
      PartsNext(site, l, d, post, n - 1);
    }
  }

  lemma JoinUpTo(out: seq<string>, n: nat)
    requires n < |out|
    ensures Join(out[..n + 1]) == Join(out[..n]) + out[n]
  {
    assert out[..n + 1][..n] == out[..n];
  }

  ghost predicate LineHolds(out: seq<string>, site: Site, l: string, d: nat, post: string, i: nat)
    requires i < |out|
  {
    InOrder(out[i], PartsOn(site, l, d, post, i))
  }

  lemma {:induction false} LinesInOrder(out: seq<string>, site: Site, l: string, d: nat, post: string, n: nat)
    requires n <= |out| && forall i: nat :: i < n ==> LineHolds(out, site, l, d, post, i)
    ensures InOrder(Join(out[..n]), PartsUpTo(site, l, d, post, n))
  {
    if n > 0 {
      LinesInOrder(out, site, l, d, post, n - 1);
      assert LineHolds(out, site, l, d, post, n - 1);
      JoinUpTo(out, n - 1);
      InOrderConcat(
        Join(out[..n - 1]), PartsUpTo(site, l, d, post, n - 1), out[n - 1], PartsOn(site, l, d, post, n - 1));
    }
  }

  lemma WhenTrimmed(b: bool, s: string)
    ensures AllTrimmed(When(b, s))
  {
    StripTrimmed(s);
  }

  lemma TrimmedConcat(a: seq<string>, b: seq<string>)
    requires AllTrimmed(a) && AllTrimmed(b)
    ensures AllTrimmed(a + b)
  {
  }

  lemma PartsTrimmed(site: Site, l: string, d: nat, post: string, i: nat)
    ensures AllTrimmed(PartsOn(site, l, d, post, i))
  {
    var a, b, c := When(i == site.first, site.pre), When(i == d, l), When(i == EndLine(site), post);
    WhenTrimmed(i == site.first, site.pre);
    WhenTrimmed(i == d, l);
    WhenTrimmed(i == EndLine(site), post);
    TrimmedConcat(a, b);
    TrimmedConcat(a + b, c);
  }

  /** Moved down by c lines and injected into again, the lines still hold their parts. */
  lemma KeptLineInOrder(
    lines: seq<string>, site: Site, d: nat, post: string, mid: seq<string>, out: seq<string>, c: nat, i: nat)
    requires Sited(lines, site) && site.first <= d < site.next && StartsWith(site.closed, post)
    requires mid == Page(lines, site, "") && Kept(mid, out, c) && i < |lines|
    ensures InOrder(out[c + i], PartsOn(site, lines[d], d, post, i))
  {
    PageLineInOrder(lines, site, "", d, post, i);
    PartsTrimmed(site, lines[d], d, post, i);
    assert mid[i] == PageLine(lines, site, "", i) && KeptAt(mid[i], out[c + i]);
    KeptInOrder(mid[i], out[c + i], PartsOn(site, lines[d], d, post, i));
  }

  lemma AllParts(site: Site, l: string, d: nat, post: string, n: nat)
    requires site.first <= d <= EndLine(site) < n
    ensures PartsUpTo(site, l, d, post, n) == [Strip(site.pre), Strip(l), Strip(post)]
  {
    PartsUpToIs(site, l, d, post, n);
  }

  lemma TextInOrder(out: seq<string>, c: nat, parts: seq<string>)
    requires c <= |out| && InOrder(Join(out[c..]), parts)
    ensures InOrder(Join(out), parts)
  {
    InOrderWithin(Join(out[..c]), Join(out[c..]), "", parts);
    Halves(out, c);
    assert Join(out[..c]) + Join(out[c..]) + "" == Join(out);
  }

  lemma FileInOrder(
    lines: seq<string>, site: Site, d: nat, post: string, mid: seq<string>, out: seq<string>, c: nat)
    requires Sited(lines, site) && site.first <= d < site.next && StartsWith(site.closed, post)
    requires mid == Page(lines, site, "") && Kept(mid, out, c)
    ensures InOrder(Join(out), [Strip(site.pre), Strip(lines[d]), Strip(post)])
  {
    var own := out[c..];
    forall i: nat | i < |lines| ensures LineHolds(own, site, lines[d], d, post, i) {
      KeptLineInOrder(lines, site, d, post, mid, out, c, i);
    }
    LinesInOrder(own, site, lines[d], d, post, |lines|);
    AllParts(site, lines[d], d, post, |lines|);
    assert own[..|lines|] == own;
    TextInOrder(out, c, [Strip(site.pre), Strip(lines[d]), Strip(post)]);
  }

  /** In the file the two injections leave, the text the first put in front, the text of its requested line and the text
      it put behind still follow each other. */
  lemma TwoSitesInOrder(lines: seq<string>, d: nat, drop: Job, mid: seq<string>, origin: Job, out: seq<string>)
    requires FileLines(lines) && d < |lines| && Inline(drop) && Inline(origin)
    requires drop.line == d + 1 && drop.prepend == ""
    requires After(lines, drop) == Some(mid) && After(mid, origin) == Some(out)
    ensures InOrder(WrittenBy(mid, origin), [Strip(drop.pre), Strip(lines[d]), Strip(drop.post)])
  {
    DropKeeps(lines, drop, mid);
    AfterKeeps(mid, origin);
    DropPage(lines, d, drop, mid);
    var site := SiteAt(lines, d, drop.pre, drop.post).value;
    FileInOrder(lines, site, d, drop.post, mid, out, |Whole(origin.prepend)|);
    JoinRead(WrittenBy(mid, origin));
  }

  lemma DropPage(lines: seq<string>, d: nat, drop: Job, mid: seq<string>)
    requires FileLines(lines) && d < |lines| && Inline(drop) && drop.line == d + 1 && drop.prepend == ""
    requires After(lines, drop) == Some(mid)
    ensures SiteAt(lines, d, drop.pre, drop.post).Some?
    ensures var site := SiteAt(lines, d, drop.pre, drop.post).value;
            && Sited(lines, site) && site.first <= d < site.next && site.pre == drop.pre
            && StartsWith(site.closed, drop.post) && mid == Page(lines, site, "")
  {
    AfterIs(lines, d, drop);
    InjectedPage(lines, d, drop.pre, drop.post, "");
    SitedAt(lines, d, drop.pre, drop.post);
    SiteShape(lines, d, drop.pre, drop.post);
    assert Whole("") == [] && Rest("") == "";
    var page := Page(lines, SiteAt(lines, d, drop.pre, drop.post).value, "");
    assert [] + page == page;
  }
}
