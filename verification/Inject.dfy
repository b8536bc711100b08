/** scripts/injection/inject_lines.py: rewriting a source file around one statement. */
module Inject {
  import opened Options
  import opened Text

  /** The new lines, or the IndexError Python raises before anything is written. */
  datatype Outcome = Ok(lines: seq<string>) | IndexError

  // ---- the pieces of the rewriting, as functions of the lines read

  /** Python indexing: negative indices count from the end. */
  function PyAt(lines: seq<string>, i: int): Option<string> {
    if 0 <= i < |lines| then Some(lines[i])
    else if -|lines| <= i < 0 then Some(lines[|lines| + i])
    else None
  }

  predicate IsComment(l: string) {
    StartsInTwo(l, '/', '/') || StartsInTwo(l, '/', '*') || EndsInTwo(l, '*', '/')
  }

  /** The nearest line from index i upwards that is not a comment; below 0 the search wraps around. */
  function PrevText(lines: seq<string>, i: int): Option<string>
    decreases i + |lines| + 1
  {
    match PyAt(lines, i)
    case None => None
    case Some(t) => if IsComment(t) then PrevText(lines, i - 1) else Some(t)
  }

  const CONTROL := ["if", "else"]
  const NOT_CONTROL := ["endif", "ifdef", "ifndef"]

  predicate HasAny(l: string, words: seq<string>) { exists i :: 0 <= i < |words| && Contains(l, words[i]) }

  /** The previous line opens an unbraced branch. */
  predicate UseBraces(prev: string) {
    HasAny(prev, CONTROL) && !Contains(prev, "{") && !HasAny(prev, NOT_CONTROL)
  }

  /** list.index: the first line equal to t. */
  function FirstIndex(lines: seq<string>, t: string): (n: nat)
    ensures n <= |lines|
    ensures n < |lines| ==> lines[n] == t
    ensures forall i :: 0 <= i < n ==> lines[i] != t
  {
    if lines == [] || lines[0] == t then 0 else 1 + FirstIndex(lines[1..], t)
  }

  /** The lines before the target, with the opening brace where it is added. */
  function Marked(lines: seq<string>, prev: string, braces: bool): (m: seq<string>)
    ensures |m| == |lines|
  {
    var p := FirstIndex(lines, prev);
    if braces && p < |lines| then lines[p := lines[p] + " {"] else lines
  }

  /** A statement: the index of its last line, and its lines in one string. */
  datatype Extent = Extent(last: nat, code: string)

  /** From line i on, add lines to code until it ends in a semicolon. */
  function Extend(lines: seq<string>, i: nat, code: string): Option<Extent>
    decreases |lines| - i
  {
    if EndsIn(code, ';') then Some(Extent(i, code))
    else if i + 1 < |lines| then Extend(lines, i + 1, code + lines[i + 1])
    else None
  }

  predicate Continues(l: string) { EndsIn(l, ',') || EndsIn(l, '=') }

  function Statement(lines: seq<string>, i: nat): Option<Extent>
    requires i < |lines|
  {
    if Continues(lines[i]) then Extend(lines, i, lines[i]) else Some(Extent(i, lines[i]))
  }

  /** The statement's first line: the target, or the line before it when that ends in an assignment. */
  function FirstLine(marked: seq<string>): nat {
    if marked != [] && EndsIn(marked[|marked| - 1], '=') then |marked| - 1 else |marked|
  }

  /** The one new element: the statement with its wrapping. next is the line after the statement. */
  function Wrapped(pre: string, code: string, post: string, braces: bool, next: string): string {
    var closed := post + if braces then " }" else "";
    if StartsIn(next, '#') then pre + (Strip(code) + " ") + (closed + "\n") else pre + code + closed
  }

  /** What the target branch makes of the lines before it, and the index of the line it leaves for the loop. */
  datatype Rewrite = Rewrite(newLines: seq<string>, next: nat)

  /** The target branch once the lines before the target are marked. */
  function FromMarked(lines: seq<string>, marked: seq<string>, braces: bool, pre: string, post: string): Option<Rewrite>
    requires |marked| < |lines|
  {
    var a := FirstLine(marked);
    match Statement(lines, a)
    case None => None
    case Some(e) =>
      if e.last + 1 >= |lines| then None
      else Some(Rewrite(marked[..a] + [Wrapped(pre, e.code, post, braces, lines[e.last + 1])], e.last + 1))
  }

  function AtTarget(lines: seq<string>, t: nat, pre: string, post: string): Option<Rewrite>
    requires t < |lines|
  {
    match PrevText(lines, t - 1)
    case None => None
    case Some(prev) => FromMarked(lines, Marked(lines[..t], prev, UseBraces(prev)), UseBraces(prev), pre, post)
  }

  function Injected(lines: seq<string>, lineNumber: int, pre: string, post: string, prepend: string): Outcome {
    var t := lineNumber - 1;
    if !(0 <= t < |lines|) then Ok([prepend] + lines)
    else match AtTarget(lines, t, pre, post)
      case None => IndexError
      case Some(d) => if d.next <= |lines| then Ok([prepend] + d.newLines + lines[d.next..]) else IndexError
  }

  // ---- the loops

  /** The walk up over comments. */
  method FindPrev(lines: seq<string>, start: int) returns (prev: Option<string>)
    requires start < |lines|
    ensures prev == PrevText(lines, start)
  {
    var i := start;
    prev := PyAt(lines, i);
    while prev.Some? && IsComment(prev.value)
      invariant i <= start && prev == PyAt(lines, i) && PrevText(lines, i) == PrevText(lines, start)
      decreases i + |lines| + 1
    {
      i := i - 1;
      prev := PyAt(lines, i);
    }
  }

  /** The keyword loops, in whatever order the sets are enumerated. */
  method DecideBraces(prev: string, control: seq<string>, notControl: seq<string>) returns (useBraces: bool)
    requires multiset(control) == multiset(CONTROL) && multiset(notControl) == multiset(NOT_CONTROL)
    ensures useBraces == UseBraces(prev)
  {
    SameWords(prev, control, CONTROL);
    SameWords(prev, notControl, NOT_CONTROL);
    useBraces := false;
    for c := 0 to |control|
      invariant useBraces == false
      invariant !Contains(prev, "{") && !HasAny(prev, notControl) ==> !HasAny(prev, control[..c])
    {
      if Contains(prev, control[c]) && !Contains(prev, "{") {
        useBraces := true;
        for n := 0 to |notControl|
          invariant useBraces == !HasAny(prev, notControl[..n])
        {
          assert notControl[..n + 1] == notControl[..n] + [notControl[n]];
          if Contains(prev, notControl[n]) {
            useBraces := false;
          }
        }
        assert notControl[..|notControl|] == notControl;
        if useBraces {
          return;
        }
      }
      assert control[..c + 1] == control[..c] + [control[c]];
    }
    assert control[..|control|] == control;
  }

  lemma SameWords(l: string, s: seq<string>, t: seq<string>)
    requires multiset(s) == multiset(t)
    ensures HasAny(l, s) == HasAny(l, t)
  {
    forall w ensures w in s <==> w in t {
      assert w in multiset(s) <==> w in multiset(t);
    }
    if i :| 0 <= i < |s| && Contains(l, s[i]) { assert s[i] in t; }
    if i :| 0 <= i < |t| && Contains(l, t[i]) { assert t[i] in s; }
  }

  lemma ExtendStep(lines: seq<string>, i: nat, code: string)
    requires !EndsIn(code, ';')
    ensures i + 1 < |lines| ==> Extend(lines, i, code) == Extend(lines, i + 1, code + lines[i + 1])
    ensures i + 1 >= |lines| ==> Extend(lines, i, code) == None
  {
  }

  /** The loop that collects the lines of a statement. */
  method Collect(lines: seq<string>, start: nat) returns (r: Option<Extent>)
    requires start < |lines|
    ensures r == Statement(lines, start)
    ensures r.Some? ==> start <= r.value.last < |lines|
  {
    var i, code := start, lines[start];
    if EndsIn(code, ',') || EndsIn(code, '=') {
      while !EndsIn(code, ';')
        invariant start <= i < |lines| && Extend(lines, i, code) == Extend(lines, start, lines[start])
        decreases |lines| - i
      {
        ExtendStep(lines, i, code);
        i := i + 1;
        if i >= |lines| {
          return None;
        }
        code := code + lines[i];
      }
    }
    r := Some(Extent(i, code));
  }

  /** The target branch, with lines[..t] the lines before it and t its index. */
  method RewriteTarget(
    lines: seq<string>, t: nat, pre: string, post: string, control: seq<string>, notControl: seq<string>)
    returns (done: Option<Rewrite>)
    requires t < |lines|
    requires multiset(control) == multiset(CONTROL) && multiset(notControl) == multiset(NOT_CONTROL)
    ensures done == AtTarget(lines, t, pre, post)
  {
    var prev := FindPrev(lines, t - 1);
    if prev.None? {
      done := None;
    } else {
      var useBraces := DecideBraces(prev.value, control, notControl);
      done := Rewritten(lines, t, prev.value, useBraces, pre, post);
    }
  }

  /** The target branch once the braces are decided: opening brace, step back over an assignment, statement,
      closing brace, preprocessor check, concatenation. */
  method Rewritten(lines: seq<string>, t: nat, prev: string, useBraces: bool, pre: string, post: string)
    returns (done: Option<Rewrite>)
    requires t < |lines|
    ensures done == FromMarked(lines, Marked(lines[..t], prev, useBraces), useBraces, pre, post)
  {
    var newLines, lineIndex := lines[..t], t;
    if useBraces {
      var p := FirstIndex(newLines, prev);
      if p < |newLines| {
        newLines := newLines[p := newLines[p] + " {"];
      }
    }
    ghost var marked := Marked(lines[..t], prev, useBraces);
    assert newLines == marked;
    if newLines != [] && EndsIn(newLines[|newLines| - 1], '=') {
      lineIndex := lineIndex - 1;
      newLines := newLines[..|newLines| - 1];
    }
    assert newLines == marked[..lineIndex];
    FromMarkedCases(lines, marked, useBraces, pre, post, Statement(lines, lineIndex));
    var statement := Collect(lines, lineIndex);
    if statement.None? || statement.value.last + 1 >= |lines| {
      done := None;
    } else {
      var code, postInjection, next := statement.value.code, post, statement.value.last + 1;
      assert post + "" == post;
      if useBraces {
        postInjection := postInjection + " }";
      }
      if StartsIn(lines[next], '#') {
        code := Strip(code) + " ";
        postInjection := postInjection + "\n";
      }
      newLines := newLines + [pre + code + postInjection];
      done := Some(Rewrite(newLines, next));
    }
  }

  lemma FromMarkedCases(
    lines: seq<string>, marked: seq<string>, braces: bool, pre: string, post: string, e: Option<Extent>)
    requires |marked| < |lines| && e == Statement(lines, FirstLine(marked))
    ensures FromMarked(lines, marked, braces, pre, post) ==
      if e.None? || e.value.last + 1 >= |lines| then None
      else Some(Rewrite(
        marked[..FirstLine(marked)] + [Wrapped(pre, e.value.code, post, braces, lines[e.value.last + 1])],
        e.value.last + 1))
  {
  }

  /** __inject_line between reading and writing: one pass over the lines, with an index the target branch may
      move back by one or forward over a statement. */
  method InjectLine(
    lines: seq<string>, lineNumber: int, pre: string, post: string, prepend: string,
    control: seq<string>, notControl: seq<string>) returns (r: Outcome)
    requires multiset(control) == multiset(CONTROL) && multiset(notControl) == multiset(NOT_CONTROL)
    ensures r == Injected(lines, lineNumber, pre, post, prepend)
  {
    ghost var t, goal := lineNumber - 1, Injected(lines, lineNumber, pre, post, prepend);
    var newLines: seq<string> := [];
    var lineIndex := 0;
    ghost var hit := false;
    InjectedCases(lines, lineNumber, pre, post, prepend);
    while lineIndex < |lines|
      invariant 0 <= lineIndex <= |lines|
      invariant hit ==> 0 <= t < lineIndex && goal == Ok([prepend] + newLines + lines[lineIndex..])
      invariant !hit ==> newLines == lines[..lineIndex] && (0 <= t < |lines| ==> lineIndex <= t)
    {
      if lineIndex == lineNumber - 1 {
        TargetOnce(lines, lineIndex, pre, post);
        var done := RewriteTarget(lines, lineIndex, pre, post, control, notControl);
        if done.None? {
          return IndexError;
        }
        newLines, lineIndex := done.value.newLines, done.value.next;
        hit := true;
      } else {
        CopyLine(prepend, newLines, lines, lineIndex);
        newLines := newLines + [lines[lineIndex]];
        lineIndex := lineIndex + 1;
      }
    }
    r := Ok([prepend] + newLines);
    assert [prepend] + newLines + lines[|lines|..] == [prepend] + newLines;
  }

  lemma CopyLine(prepend: string, newLines: seq<string>, lines: seq<string>, i: nat)
    requires i < |lines|
    ensures [prepend] + (newLines + [lines[i]]) + lines[i + 1..] == [prepend] + newLines + lines[i..]
  {
    assert lines[i..] == [lines[i]] + lines[i + 1..];
  }

  lemma InjectedCases(lines: seq<string>, lineNumber: int, pre: string, post: string, prepend: string)
    ensures var t, r := lineNumber - 1, Injected(lines, lineNumber, pre, post, prepend);
            if 0 <= t < |lines| then
              var d := AtTarget(lines, t, pre, post);
              if d.None? then r == IndexError
              else d.value.next < |lines| && r == Ok([prepend] + d.value.newLines + lines[d.value.next..])
            else r == Ok([prepend] + lines)
  {
  }

  /** The target branch leaves an index past the target, so it runs only once despite its step back. */
  lemma TargetOnce(lines: seq<string>, t: nat, pre: string, post: string)
    requires t < |lines|
    ensures AtTarget(lines, t, pre, post).Some? ==> t < AtTarget(lines, t, pre, post).value.next < |lines|
  {
    if prev :| PrevText(lines, t - 1) == Some(prev) {
      SteppedBack(lines, t, prev, UseBraces(prev));
    }
  }

  /** After the step back the statement cannot end before the target: the target branch runs only once. */
  lemma SteppedBack(lines: seq<string>, t: nat, prev: string, braces: bool)
    requires t < |lines|
    ensures var a := FirstLine(Marked(lines[..t], prev, braces));
            && a <= t && a < |lines|
            && (a < t ==> a == t - 1 && EndsIn(lines[a], '=') && Marked(lines[..t], prev, braces)[a] == lines[a])
            && (Statement(lines, a).Some? ==> t <= Statement(lines, a).value.last < |lines|)
  {
    var marked := Marked(lines[..t], prev, braces);
    var a := FirstLine(marked);
    if a < t {
      BraceEnds(lines[a]);
      ExtendRange(lines, a, lines[a]);
    } else {
      ExtendRange(lines, a, lines[a]);
    }
  }

  /** A line with the brace appended no longer ends in an assignment. */
  lemma BraceEnds(l: string)
    ensures !EndsIn(l + " {", '=')
  {
    EndConcat(l, " {");
    EdgesMeaning(l + " {");
    assert " {"[1] == '{' && !IsSpace(" {"[1]);
    assert (l + " {")[|l| + 1] == '{';
    assert End(l + " {") == |l| + 2;
  }

  lemma {:induction false} ExtendRange(lines: seq<string>, i: nat, code: string)
    requires i < |lines|
    ensures Extend(lines, i, code).Some? ==> i <= Extend(lines, i, code).value.last < |lines|
    ensures Extend(lines, i, code).Some? && EndsIn(code, '=') ==> i < Extend(lines, i, code).value.last
    decreases |lines| - i
  {
    if !EndsIn(code, ';') && i + 1 < |lines| {
      ExtendRange(lines, i + 1, code + lines[i + 1]);
    }
  }
}
