/** From the text of a report to its rows. */
module ReportText {
  import opened Options
  import opened Text
  import opened Report
  import opened ReportBlocks

  function StripAll(lines: seq<string>): seq<string> { seq(|lines|, i requires 0 <= i < |lines| => Strip(lines[i])) }

  /** Each line with its newline, as the analysis prints them. */
  function Terminated(lines: seq<string>): seq<string> {
    seq(|lines|, i requires 0 <= i < |lines| => lines[i] + "\n")
  }

  lemma StripTerminated(l: string)
    ensures Strip(l + "\n") == Strip(l)
  {
    assert Blank("\n");
    if Blank(l) {
      EndConcat(l, "\n");
      EdgesMeaning(l);
      EdgesMeaning(l + "\n");
    } else {
      StripBlankEnd(l, "\n");
    }
  }

  /** Reading a printed report gives its lines, stripped. */
  lemma ReadReport(lines: seq<string>)
    requires forall i :: 0 <= i < |lines| ==> NoNewline(lines[i])
    ensures StripAll(ReadLines(Join(Terminated(lines)))) == StripAll(lines)
  {
    var ts := Terminated(lines);
    forall i | 0 <= i < |ts| ensures IsLine(ts[i]) {
      assert ts[i] == lines[i] + "\n";
    }
    JoinLinesRest(ts);
    assert ReadLines(Join(ts)) == ts;
    forall i | 0 <= i < |ts| ensures Strip(ts[i]) == Strip(lines[i]) {
      StripTerminated(lines[i]);
    }
  }

  /** Whatever spaces the printed lines have around them, parsing the text of a report gives one row per block. */
  lemma ReportRoundTrip(g: Given, blocks: seq<Block>, lines: seq<string>)
    requires AllWellFormed(blocks) && StripAll(lines) == PrintAll(blocks)
    requires forall i :: 0 <= i < |lines| ==> NoNewline(lines[i])
    ensures Parsed(g, blocks, Run(g, START, StripAll(ReadLines(Join(Terminated(lines))))))
  {
    ReadReport(lines);
    PrintedParses(g, blocks);
  }

  // ---- the dropping function's name

  predicate NameChar(c: char) { !IsSpace(c) && c != '"' }

  /** A word without spaces and quotes. */
  ghost predicate IsWord(word: string) { forall i :: 0 <= i < |word| ==> NameChar(word[i]) }

  /** The word without its trailing digits. */
  function Base(word: string): string { DropTrailing(word, IsDigit) }

  /** The digits and quotes that are cut off. */
  lemma CutCharacters(c: char)
    ensures IsDigit(c) <==> c in "0123456789"
    ensures IsQuote(c) <==> c == '"'
  {
  }

  ghost predicate AllDigits(digits: string) { forall i :: 0 <= i < |digits| ==> IsDigit(digits[i]) }

  lemma {:induction false} WordStartAt(s: string, a: nat, n: nat)
    requires a <= n <= |s| && (a > 0 ==> IsSpace(s[a - 1]))
    requires forall i :: a <= i < n ==> !IsSpace(s[i])
    ensures WordStart(s, n) == a
    decreases n
  {
    if a < n {
      WordStartAt(s, a, n - 1);
    }
  }

  /** The last word of a text that ends in one. */
  lemma LastWordIs(pre: string, word: string)
    requires word != "" && pre != "" && IsSpace(pre[|pre| - 1])
    requires forall i :: 0 <= i < |word| ==> !IsSpace(word[i])
    ensures LastWord(pre + word) == word
  {
    var s := pre + word;
    EdgesMeaning(s);
    assert s[|s| - 1] == word[|word| - 1];
    assert End(s) == |s|;
    forall i | |pre| <= i < |s| ensures !IsSpace(s[i]) {
      assert s[i] == word[i - |pre|];
    }
    WordStartAt(s, |pre|, |s|);
  }

  lemma {:induction false} BaseOfDigits(name: string, digits: string)
    requires AllDigits(digits)
    ensures Base(name + digits) == Base(name)
    decreases |digits|
  {
    var s := name + digits;
    if digits == "" {
      assert s == name;
    } else {
      assert s[|s| - 1] == digits[|digits| - 1] && s[..|s| - 1] == name + digits[..|digits| - 1];
      BaseOfDigits(name, digits[..|digits| - 1]);
    }
  }

  lemma {:induction false} BaseShorter(word: string)
    ensures |Base(word)| <= |word| && (Base(word) == word <==> word == "" || !IsDigit(word[|word| - 1]))
  {
    if word != "" && IsDigit(word[|word| - 1]) {
      BaseShorter(word[..|word| - 1]);
    }
  }

  lemma DropQuote(s: string)
    requires s != "" && !IsQuote(s[|s| - 1])
    ensures DropTrailing(s + "\"", IsQuote) == s
  {
    var t := s + "\"";
    assert t[|t| - 1] == '"' && t[..|t| - 1] == s;
  }

  /** The words with which a report says where an error comes from. */
  const FROM := "receives an error from function "

  lemma SameWords()
    ensures FROM == RECEIVES
  {
  }

  function ReceivesLine(pre: string, word: string): string { pre + FROM + ("\"" + word + "\"") }

  /** The message about an error that target receives at place. */
  function ReceivesMessage(place: string, target: string, name: string): string {
    ReceivesLine(place + ":" + "\"" + target + "\"" + " ", name)
  }

  /** What the parser takes for the function's name is the word between the last quotes without its trailing digits, and
      so the word itself exactly when it does not end in a digit. */
  lemma FunctionNameIs(pre: string, word: string)
    requires IsWord(word)
    ensures FunctionName(ReceivesLine(pre, word)) == Base(word)
    ensures FunctionName(ReceivesLine(pre, word)) == word <==> word == "" || !IsDigit(word[|word| - 1])
  {
    var quoted := "\"" + word + "\"";
    SameWords();
    assert forall i :: 0 <= i < |quoted| ==> !IsSpace(quoted[i]);
    assert (pre + RECEIVES)[|pre + RECEIVES| - 1] == RECEIVES[|RECEIVES| - 1] == ' ';
    LastWordIs(pre + RECEIVES, quoted);
    Unquoted(word);
    ContainsSelf(RECEIVES);
    ContainsWithin(pre, RECEIVES, quoted, RECEIVES);
    BaseShorter(word);
  }

  /** A line without those words names no function. */
  lemma NoFunctionName(line: string)
    requires !Contains(line, "receives an error from function ")
    ensures FunctionName(line) == ""
  {
  }

  lemma Unquoted(word: string)
    requires IsWord(word)
    ensures DropTrailing(DropLeading("\"" + word + "\"", '"'), IsQuote) == word
  {
    var quoted := "\"" + word + "\"";
    assert quoted[0] == '"' && quoted[1..] == word + "\"";
    if word == "" {
      assert (word + "\"")[0] == '"' && (word + "\"")[1..] == "";
      assert DropLeading(word + "\"", '"') == DropLeading("", '"') == "";
    } else {
      assert (word + "\"")[0] == word[0] != '"';
      DropQuote(word);
    }
  }

  /** Functions whose names differ only in trailing digits are one function to the parser: their rows have the same
      dropping function, and what the old csv knows of one it knows of the other. */
  lemma DigitsShareFunction(
    g: Given, name: string, digits: string, digits': string, pre: string, pre': string,
    code: Option<string>, code': Option<string>, temp: seq<string>, temp': seq<string>)
    requires IsWord(name) && AllDigits(digits) && AllDigits(digits')
    requires |temp| > 1 && temp[1] == ReceivesLine(pre, name + digits)
    requires |temp'| > 1 && temp'[1] == ReceivesLine(pre', name + digits')
    ensures RowOf(g, code, temp).dropping == RowOf(g, code', temp').dropping == Base(name)
    ensures KnownValid(g, Unsaved, FunctionName(temp[1])) <==> KnownValid(g, Unsaved, FunctionName(temp'[1]))
  {
    assert IsWord(name + digits) && IsWord(name + digits');
    FunctionNameIs(pre, name + digits);
    FunctionNameIs(pre', name + digits');
    BaseOfDigits(name, digits);
    BaseOfDigits(name, digits');
  }
}
