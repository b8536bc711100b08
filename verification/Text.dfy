/** Python strings as the scripts use them: whitespace, substrings, and the lines of a file. */
module Text {

  // ---- whitespace

  /** The ASCII characters str.strip removes. */
  predicate IsSpace(c: char) { c == ' ' || '\t' <= c <= '\r' || '\U{001C}' <= c <= '\U{001F}' }

  /** Characters a to b - 1 are spaces. */
  predicate BlankIn(s: string, a: nat, b: nat)
    requires b <= |s|
  {
    forall i :: a <= i < b ==> IsSpace(s[i])
  }

  predicate Blank(s: string) { BlankIn(s, 0, |s|) }

  /** The first character from i on that is not a space. */
  function LeadFrom(s: string, i: nat): nat
    decreases |s| - i
  {
    if i < |s| && IsSpace(s[i]) then LeadFrom(s, i + 1) else i
  }

  /** The end of s[..n] without its trailing spaces. */
  function EndFrom(s: string, n: nat): nat { if 0 < n <= |s| && IsSpace(s[n - 1]) then EndFrom(s, n - 1) else n }

  function Lead(s: string): nat { LeadFrom(s, 0) }

  function End(s: string): nat { EndFrom(s, |s|) }

  lemma {:induction false} LeadMeaning(s: string, i: nat)
    requires i <= |s|
    ensures i <= LeadFrom(s, i) <= |s| && BlankIn(s, i, LeadFrom(s, i))
    ensures LeadFrom(s, i) < |s| ==> !IsSpace(s[LeadFrom(s, i)])
    decreases |s| - i
  {
    if i < |s| && IsSpace(s[i]) {
      LeadMeaning(s, i + 1);
    }
  }

  lemma {:induction false} EndMeaning(s: string, n: nat)
    requires n <= |s|
    ensures EndFrom(s, n) <= n && BlankIn(s, EndFrom(s, n), n)
    ensures EndFrom(s, n) > 0 ==> !IsSpace(s[EndFrom(s, n) - 1])
  {
    if 0 < n && IsSpace(s[n - 1]) {
      EndMeaning(s, n - 1);
    }
  }

  /** The characters that are spaces. */
  lemma SpaceCharacters(c: char)
    ensures IsSpace(c) <==>
            c in [' ', '\t', '\n', '\U{000B}', '\U{000C}', '\r', '\U{001C}', '\U{001D}', '\U{001E}', '\U{001F}']
  {
  }

  lemma EdgesMeaning(s: string)
    ensures Lead(s) <= |s| && BlankIn(s, 0, Lead(s)) && (Lead(s) < |s| ==> !IsSpace(s[Lead(s)]))
    ensures End(s) <= |s| && BlankIn(s, End(s), |s|) && (End(s) > 0 ==> !IsSpace(s[End(s) - 1]))
    ensures !Blank(s) ==> Lead(s) < End(s)
    ensures Blank(s) ==> Lead(s) == |s| && End(s) == 0
  {
    LeadMeaning(s, 0);
    EndMeaning(s, |s|);
  }

  function Strip(s: string): string { if Lead(s) < End(s) <= |s| then s[Lead(s)..End(s)] else "" }

  function LeftStripped(s: string): string { if Lead(s) <= |s| then s[Lead(s)..] else "" }

  function RightStripped(s: string): string { if End(s) <= |s| then s[..End(s)] else "" }

  /** No space at either end. */
  predicate Trimmed(s: string) { s != "" ==> !IsSpace(s[0]) && !IsSpace(s[|s| - 1]) }

  lemma StripTrimmed(s: string)
    ensures Trimmed(Strip(s))
    ensures Strip(s) == "" <==> Blank(s)
  {
    EdgesMeaning(s);
  }

  /** Stripping takes spaces from both ends and nothing else. */
  lemma StripMeaning(s: string) returns (before: string, after: string)
    ensures s == before + Strip(s) + after && Blank(before) && Blank(after) && Trimmed(Strip(s))
  {
    EdgesMeaning(s);
    StripTrimmed(s);
    if Blank(s) {
      before, after := s, "";
    } else {
      before, after := s[..Lead(s)], s[End(s)..];
    }
  }

  lemma LeadConcat(a: string, b: string)
    requires !Blank(a)
    ensures Lead(a + b) == Lead(a) < |a|
  {
    EdgesMeaning(a);
    EdgesMeaning(a + b);
    assert forall i :: 0 <= i < |a| ==> (a + b)[i] == a[i];
  }

  lemma EndConcat(a: string, b: string)
    ensures !Blank(b) ==> End(a + b) == |a| + End(b) && End(b) > 0
    ensures Blank(b) ==> End(a + b) == End(a)
  {
    EdgesMeaning(a);
    EdgesMeaning(b);
    EdgesMeaning(a + b);
    assert forall i :: 0 <= i < |a| ==> (a + b)[i] == a[i];
    assert forall i :: 0 <= i < |b| ==> (a + b)[|a| + i] == b[i];
  }

  lemma SliceAround(first: string, mid: string, last: string, p: nat, q: nat)
    requires p <= |first| && q <= |last|
    ensures (first + mid + last)[p..|first| + |mid| + q] == first[p..] + mid + last[..q]
  {
  }

  lemma EdgesAround(first: string, mid: string, last: string)
    requires !Blank(first) && !Blank(last)
    ensures Lead(first + mid + last) == Lead(first) < |first|
    ensures |first| + |mid| < End(first + mid + last) == |first| + |mid| + End(last) && End(last) <= |last|
  {
    assert first + mid + last == first + (mid + last);
    LeadConcat(first, mid + last);
    EndConcat(first + mid, last);
    EdgesMeaning(last);
  }

  /** Stripping a text whose first and last parts are not blank strips only those parts. */
  lemma StripAround(first: string, mid: string, last: string)
    requires !Blank(first) && !Blank(last)
    ensures Lead(first) < |first| && End(last) <= |last|
    ensures Strip(first + mid + last) == first[Lead(first)..] + mid + last[..End(last)]
  {
    EdgesAround(first, mid, last);
    SliceAround(first, mid, last, Lead(first), End(last));
  }

  /** A blank addition at the end changes nothing for strip. */
  lemma StripBlankEnd(s: string, b: string)
    requires !Blank(s) && Blank(b)
    ensures Strip(s + b) == Strip(s)
  {
    EdgesMeaning(s);
    LeadConcat(s, b);
    EndConcat(s, b);
  }

  // ---- substrings

  predicate OccursAt(s: string, t: string, i: nat) { i + |t| <= |s| && s[i..i + |t|] == t }

  predicate Contains(s: string, t: string) { exists i: nat :: i <= |s| && OccursAt(s, t, i) }

  lemma ContainsWithin(a: string, s: string, b: string, t: string)
    requires Contains(s, t)
    ensures Contains(a + s + b, t)
  {
    var i: nat :| i <= |s| && OccursAt(s, t, i);
    assert (a + s + b)[|a| + i..|a| + i + |t|] == s[i..i + |t|];
    assert OccursAt(a + s + b, t, |a| + i);
  }

  lemma ContainsSelf(s: string)
    ensures Contains(s, s)
  {
    assert OccursAt(s, s, 0);
  }

  lemma ContainsTrans(s: string, t: string, u: string)
    requires Contains(s, t) && Contains(t, u)
    ensures Contains(s, u)
  {
    var i: nat :| i <= |s| && OccursAt(s, t, i);
    assert s == s[..i] + t + s[i + |t|..];
    ContainsWithin(s[..i], t, s[i + |t|..], u);
  }

  lemma ContainsStrip(s: string)
    ensures Contains(s, Strip(s))
  {
    EdgesMeaning(s);
    assert OccursAt(s, Strip(s), if Blank(s) then 0 else Lead(s));
  }

  lemma SubSlice(s: string, a: nat, b: nat, i: nat, n: nat)
    requires a <= i && i + n <= b <= |s|
    ensures s[a..b][i - a..i - a + n] == s[i..i + n]
  {
    assert s[a..b][i - a..] == s[i..b];
    assert s[i..b][..n] == s[i..i + n];
    assert s[a..b][i - a..][..n] == s[a..b][i - a..i - a + n];
  }

  lemma TrimmedWithin(s: string, t: string, i: nat)
    requires OccursAt(s, t, i) && Trimmed(t) && t != ""
    ensures Lead(s) <= i && i + |t| <= End(s) <= |s|
  {
    EdgesMeaning(s);
    assert s[i] == s[i..i + |t|][0] && s[i + |t| - 1] == s[i..i + |t|][|t| - 1];
  }

  lemma OccursStripped(s: string, t: string, i: nat)
    requires OccursAt(s, t, i) && Trimmed(t) && t != ""
    ensures Lead(s) <= i && i - Lead(s) <= |Strip(s)| && OccursAt(Strip(s), t, i - Lead(s))
  {
    TrimmedWithin(s, t, i);
    SubSlice(s, Lead(s), End(s), i, |t|);
  }

  /** Strip keeps every trimmed text that was there. */
  lemma StripKeeps(s: string, t: string)
    requires Contains(s, t) && Trimmed(t)
    ensures Contains(Strip(s), t)
  {
    if t == "" {
      assert OccursAt(Strip(s), "", 0);
    } else {
      var i: nat :| i <= |s| && OccursAt(s, t, i);
      OccursStripped(s, t, i);
    }
  }

  predicate StartsWith(s: string, p: string) { |p| <= |s| && forall i :: 0 <= i < |p| ==> s[i] == p[i] }

  predicate EndsWith(s: string, p: string) {
    |p| <= |s| && forall i :: 0 <= i < |p| ==> s[|s| - |p| + i] == p[i]
  }

  /** The first character after stripping. */
  predicate StartsIn(s: string, c: char) { Lead(s) < End(s) <= |s| && s[Lead(s)] == c }

  /** The last character after stripping. */
  predicate EndsIn(s: string, c: char) { Lead(s) < End(s) <= |s| && s[End(s) - 1] == c }

  /** The first two characters after stripping. */
  predicate StartsInTwo(s: string, c: char, d: char) {
    Lead(s) + 1 < End(s) <= |s| && s[Lead(s)] == c && s[Lead(s) + 1] == d
  }

  /** The last two characters after stripping. */
  predicate EndsInTwo(s: string, c: char, d: char) {
    Lead(s) + 1 < End(s) <= |s| && s[End(s) - 2] == c && s[End(s) - 1] == d
  }

  lemma EdgePairs(s: string, c: char, d: char)
    ensures StartsInTwo(s, c, d) <==> StartsWith(Strip(s), [c, d])
    ensures EndsInTwo(s, c, d) <==> EndsWith(Strip(s), [c, d])
  {
    EdgesMeaning(s);
    var t, p := Strip(s), [c, d];
    if |t| >= 2 {
      assert t[0] == s[Lead(s)] && t[1] == s[Lead(s) + 1];
      assert t[|t| - 2] == s[End(s) - 2] && t[|t| - 1] == s[End(s) - 1];
      assert p[0] == c && p[1] == d;
    }
  }

  lemma EdgeCharacters(s: string, c: char)
    ensures StartsIn(s, c) <==> StartsWith(Strip(s), [c])
    ensures EndsIn(s, c) <==> EndsWith(Strip(s), [c])
  {
    EdgesMeaning(s);
    var t := Strip(s);
    if t != "" {
      assert t[0] == s[Lead(s)] && t[|t| - 1] == s[End(s) - 1] && [c][0] == c;
    }
  }

  // ---- lines

  predicate NoNewline(s: string) { forall i :: 0 <= i < |s| ==> s[i] != '\n' }

  /** A complete line: its only newline is at the end. */
  predicate IsLine(l: string) { |l| >= 1 && l[|l| - 1] == '\n' && forall i :: 0 <= i < |l| - 1 ==> l[i] != '\n' }

  /** What readlines returns: complete lines, the last one perhaps without its newline. */
  ghost predicate FileLines(ls: seq<string>) {
    && (forall i :: 0 <= i < |ls| - 1 ==> IsLine(ls[i]))
    && (ls != [] ==> IsLine(ls[|ls| - 1]) || (ls[|ls| - 1] != "" && NoNewline(ls[|ls| - 1])))
  }

  function Join(ls: seq<string>): string {
    if ls == [] then "" else Join(ls[..|ls| - 1]) + ls[|ls| - 1]
  }

  lemma {:induction false} JoinConcat(a: seq<string>, b: seq<string>)
    ensures Join(a + b) == Join(a) + Join(b)
  {
    if b == [] {
      assert a + b == a;
    } else {
      assert (a + b)[..|a + b| - 1] == a + b[..|b| - 1];
      JoinConcat(a, b[..|b| - 1]);
    }
  }

  lemma JoinOne(l: string)
    ensures Join([l]) == l
  {
    assert [l][..0] == [];
    assert "" + l == l;
  }

  lemma Regroup(a: string, b: string, c: string)
    ensures a + b + c == a + (b + c)
  {
  }

  /** What follows the last newline among the first n characters. */
  function RestOf(text: string, n: nat): string
    requires n <= |text|
  {
    if n == 0 || text[n - 1] == '\n' then "" else RestOf(text, n - 1) + [text[n - 1]]
  }

  /** The complete lines among the first n characters. */
  function WholeOf(text: string, n: nat): seq<string>
    requires n <= |text|
  {
    if n == 0 then []
    else if text[n - 1] == '\n' then WholeOf(text, n - 1) + [RestOf(text, n - 1) + "\n"]
    else WholeOf(text, n - 1)
  }

  /** The text after the last newline. */
  function Rest(text: string): string { RestOf(text, |text|) }

  /** The complete lines of a text. */
  function Whole(text: string): seq<string> { WholeOf(text, |text|) }

  lemma {:induction false} RestNoNewline(text: string, n: nat)
    requires n <= |text|
    ensures NoNewline(RestOf(text, n))
  {
    if n > 0 && text[n - 1] != '\n' {
      RestNoNewline(text, n - 1);
    }
  }

  lemma {:induction false} WholeLines(text: string, n: nat)
    requires n <= |text|
    ensures forall i :: 0 <= i < |WholeOf(text, n)| ==> IsLine(WholeOf(text, n)[i])
  {
    if n > 0 {
      WholeLines(text, n - 1);
      RestNoNewline(text, n - 1);
    }
  }

  lemma {:induction false} PrefixLines(text: string, t: string, n: nat)
    requires n <= |text|
    ensures WholeOf(text + t, n) == WholeOf(text, n) && RestOf(text + t, n) == RestOf(text, n)
  {
    if n > 0 {
      PrefixLines(text, t, n - 1);
      assert (text + t)[n - 1] == text[n - 1];
    }
  }

  /** What reading a file with this text gives. */
  function ReadLines(text: string): seq<string> { Whole(text) + if Rest(text) == "" then [] else [Rest(text)] }

  lemma ReadLinesShape(text: string)
    ensures FileLines(ReadLines(text))
  {
    WholeLines(text, |text|);
    RestNoNewline(text, |text|);
  }

  lemma {:induction false} WriteUpTo(text: string, t: string, n: nat)
    requires n <= |t| && NoNewline(t)
    ensures WholeOf(text + t, |text| + n) == Whole(text) && RestOf(text + t, |text| + n) == Rest(text) + t[..n]
  {
    if n == 0 {
      PrefixLines(text, t, |text|);
      assert Rest(text) + t[..0] == Rest(text);
    } else {
      WriteUpTo(text, t, n - 1);
      assert (text + t)[|text| + n - 1] == t[n - 1];
      assert t[..n] == t[..n - 1] + [t[n - 1]];
      assert Rest(text) + t[..n - 1] + [t[n - 1]] == Rest(text) + t[..n];
    }
  }

  /** Text without newlines continues the last line. */
  lemma WriteInline(text: string, t: string)
    requires NoNewline(t)
    ensures Whole(text + t) == Whole(text) && Rest(text + t) == Rest(text) + t
  {
    WriteUpTo(text, t, |t|);
    assert t[..|t|] == t;
  }

  lemma WriteNewline(text: string)
    ensures Whole(text + "\n") == Whole(text) + [Rest(text) + "\n"] && Rest(text + "\n") == ""
  {
    PrefixLines(text, "\n", |text|);
    assert (text + "\n")[|text|] == '\n';
  }

  /** A line ends the one under way. */
  lemma WriteLine(text: string, l: string)
    requires IsLine(l)
    ensures Whole(text + l) == Whole(text) + [Rest(text) + l] && Rest(text + l) == ""
  {
    var body := l[..|l| - 1];
    assert l == body + "\n";
    WriteInline(text, body);
    WriteNewline(text + body);
    assert text + body + "\n" == text + l && Rest(text) + body + "\n" == Rest(text) + l;
  }

  lemma {:induction false} JoinLinesRest(ls: seq<string>)
    requires forall i :: 0 <= i < |ls| ==> IsLine(ls[i])
    ensures Rest(Join(ls)) == "" && Whole(Join(ls)) == ls
  {
    if ls != [] {
      var init, l := ls[..|ls| - 1], ls[|ls| - 1];
      JoinLinesRest(init);
      WriteLine(Join(init), l);
      assert "" + l == l && ls == init + [l];
    }
  }

  /** Reading what was written gives the same lines back. */
  lemma ReadJoin(ls: seq<string>)
    requires FileLines(ls)
    ensures ReadLines(Join(ls)) == ls
  {
    if ls != [] {
      var init, l := ls[..|ls| - 1], ls[|ls| - 1];
      assert ls == init + [l];
      if IsLine(l) {
        JoinLinesRest(ls);
        assert Whole(Join(ls)) + [] == ls;
      } else {
        JoinLinesRest(init);
        WriteInline(Join(init), l);
        assert "" + l == l;
      }
    }
  }

  lemma {:induction false} SplitTextOf(text: string, n: nat)
    requires n <= |text|
    ensures Join(WholeOf(text, n)) + RestOf(text, n) == text[..n]
  {
    if n > 0 {
      SplitTextOf(text, n - 1);
      assert text[..n] == text[..n - 1] + [text[n - 1]];
      if text[n - 1] == '\n' {
        assert WholeOf(text, n)[..|WholeOf(text, n)| - 1] == WholeOf(text, n - 1);
      }
    }
  }

  /** A text is its complete lines and what follows. */
  lemma SplitText(text: string)
    ensures Join(Whole(text)) + Rest(text) == text
  {
    SplitTextOf(text, |text|);
    assert text[..|text|] == text;
  }

  /** The lines read from a text make it up again. */
  lemma JoinRead(text: string)
    ensures Join(ReadLines(text)) == text
  {
    SplitText(text);
    if Rest(text) == "" {
      assert Whole(text) + [] == Whole(text) && Join(Whole(text)) + "" == Join(Whole(text));
    } else {
      JoinConcat(Whole(text), [Rest(text)]);
      JoinOne(Rest(text));
    }
  }
}
