/** What one injection does to the physical lines of the file. */
module InjectLines {
  import opened Text
  import opened Inject

  // ---- the statement the target belongs to

  lemma {:induction false} ExtendCode(lines: seq<string>, i: nat, code: string)
    requires i < |lines| && Extend(lines, i, code).Some?
    ensures i <= Extend(lines, i, code).value.last < |lines|
    ensures Extend(lines, i, code).value.last == i ==> EndsIn(code, ';')
    ensures Extend(lines, i, code).value.code == code + Join(lines[i + 1..Extend(lines, i, code).value.last + 1])
    decreases |lines| - i
  {
    var e := Extend(lines, i, code).value;
    if EndsIn(code, ';') {
      assert lines[i + 1..i + 1] == [];
    } else {
      ExtendCode(lines, i + 1, code + lines[i + 1]);
      JoinFirst(lines[i + 1..e.last + 1]);
      assert lines[i + 1..e.last + 1][1..] == lines[i + 2..e.last + 1];
    }
  }

  lemma JoinFirst(ls: seq<string>)
    requires ls != []
    ensures Join(ls) == ls[0] + Join(ls[1..])
  {
    JoinConcat(ls[..1], ls[1..]);
    assert ls == ls[..1] + ls[1..];
    assert ls[..1][..0] == [];
    assert Join(ls[..1]) == "" + ls[0];
  }

  lemma EndsInBlank(s: string, b: string, c: char)
    requires !Blank(s) && Blank(b)
    ensures EndsIn(s + b, c) == EndsIn(s, c)
  {
    StripBlankEnd(s, b);
    EdgeCharacters(s, c);
    EdgeCharacters(s + b, c);
  }

  lemma BlankConcat(s: string, b: string)
    requires !Blank(s)
    ensures !Blank(s + b)
  {
    var i :| 0 <= i < |s| && !IsSpace(s[i]);
    assert (s + b)[i] == s[i];
  }

  /** A collected statement does not end in a blank line. */
  lemma {:induction false} ExtendEnds(lines: seq<string>, i: nat, code: string)
    requires i < |lines| && Extend(lines, i, code).Some? && !Blank(code)
    ensures i < Extend(lines, i, code).value.last < |lines| ==> !Blank(lines[Extend(lines, i, code).value.last])
    decreases |lines| - i
  {
    if !EndsIn(code, ';') {
      if Blank(lines[i + 1]) {
        EndsInBlank(code, lines[i + 1], ';');
      }
      BlankConcat(code, lines[i + 1]);
      ExtendCode(lines, i + 1, code + lines[i + 1]);
      ExtendEnds(lines, i + 1, code + lines[i + 1]);
    }
  }

  lemma EndsInNotBlank(s: string, c: char)
    ensures EndsIn(s, c) ==> !Blank(s)
  {
    EdgesMeaning(s);
  }

  /** The statement is the text of its lines; of several, the first and the last are not blank. */
  lemma StatementCode(lines: seq<string>, a: nat)
    requires a < |lines| && Statement(lines, a).Some?
    ensures var e := Statement(lines, a).value;
            a <= e.last < |lines| && e.code == Join(lines[a..e.last + 1])
    ensures var e := Statement(lines, a).value;
            a < e.last < |lines| ==> !Blank(lines[a]) && !Blank(lines[e.last])
  {
    var e := Statement(lines, a).value;
    if Continues(lines[a]) {
      EndsInNotBlank(lines[a], ',');
      EndsInNotBlank(lines[a], '=');
      ExtendCode(lines, a, lines[a]);
      ExtendEnds(lines, a, lines[a]);
    } else {
      assert lines[a + 1..a + 1] == [];
    }
    JoinFirst(lines[a..e.last + 1]);
    assert lines[a..e.last + 1][1..] == lines[a + 1..e.last + 1];
    assert Join([]) == "";
  }
}
