/** How the parser classifies the messages the analysis prints. */
module ReportTypes {
  import opened Text
  import opened Report

  // ---- the tests

  /** Lower case: the letters A to Z become a to z, everything else stays. */
  lemma LowerMeaning(s: string, i: nat)
    requires i < |s|
    ensures |LowerAll(s)| == |s|
    ensures LowerAll(s)[i] == s[i] || ('A' <= s[i] <= 'Z' && 'a' <= LowerAll(s)[i] <= 'z')
    ensures !('A' <= LowerAll(s)[i] <= 'Z')
    ensures 'A' <= s[i] <= 'Z' ==> LowerAll(s)[i] - 'a' == s[i] - 'A'
  {
  }

  /** The kind of a line: the first of the three texts it holds, in any case of letters, decides. */
  lemma TypeMeaning(line: string)
    ensures var l := LowerAll(line);
            && (TypeOf(line) == Unsaved <==> Contains(l, "is not saved"))
            && (TypeOf(line) == Overwritten <==> !Contains(l, "is not saved") && Contains(l, "overwriting"))
            && (TypeOf(line) == Undetected <==>
                  !Contains(l, "is not saved") && !Contains(l, "overwriting") && !Contains(l, "out of scope"))
  {
  }

  // ---- the messages

  const UNSAVED := "is not saved"
  const OVERWRITING := "overwriting"

  function Kind(overwriting: bool): string {
    if overwriting then " " + "overwriting " + "potential " else " " + "potential "
  }

  function Tentative(tentative: bool): string { if tentative then "" else "non-tentative " }

  function Scope(overwriting: bool): string { if overwriting then "" else "out of scope " }

  function Variable(pointer: bool): string { if pointer then "pointer " + "variable " else "variable " }

  const ERROR_IN := "unchecked " + "error in "

  /** What a message about an error in a variable says between the place and the name. */
  function Phrase(overwriting: bool, tentative: bool, pointer: bool): string {
    Kind(overwriting) + Tentative(tentative) + ERROR_IN + Scope(overwriting) + Variable(pointer)
  }

  /** The words of the eight phrases. */
  lemma PhraseWords(overwriting: bool, tentative: bool, pointer: bool)
    ensures Phrase(overwriting, tentative, pointer) ==
              (if overwriting then " " + "overwriting " + "potential " else " " + "potential ")
              + (if tentative then "" else "non-tentative ")
              + ("unchecked " + "error in ")
              + (if overwriting then "" else "out of scope ")
              + (if pointer then "pointer " + "variable " else "variable ")
  {
  }

  function Quoted(target: string): string { "\"" + target + "\"" }

  /** An error that is overwritten, or goes out of scope, in a variable. place is the file and line. */
  function VariableMessage(overwriting: bool, place: string, tentative: bool, pointer: bool, target: string): string {
    place + ":" + (Phrase(overwriting, tentative, pointer) + Quoted(target))
  }

  function UnsavedMessage(place: string, tentative: bool): string {
    place + ":" + (if tentative then " potential " else " potential non-tentative ") + "unchecked error " + UNSAVED
  }

  // ---- words and separators

  predicate Without(s: string, c: char) { forall i :: 0 <= i < |s| ==> s[i] != c }

  lemma OccursChars(s: string, t: string, i: nat)
    requires OccursAt(s, t, i)
    ensures forall m :: i <= m < i + |t| ==> s[m] == t[m - i]
  {
    forall m | i <= m < i + |t| ensures s[m] == t[m - i] {
      assert s[i..i + |t|][m - i] == s[m];
    }
  }

  lemma OccursSide(x: string, c: char, y: string, t: string, i: nat)
    requires Without(t, c) && OccursAt(x + [c] + y, t, i) && t != ""
    ensures Contains(x, t) || Contains(y, t)
  {
    var s := x + [c] + y;
    OccursChars(s, t, i);
    assert s[|x|] == c;
    if i > |x| {
      var k := i - |x| - 1;
      assert s[i..i + |t|] == y[k..k + |t|];
      assert OccursAt(y, t, k);
    } else {
      assert s[i..i + |t|] == x[i..i + |t|];
      assert OccursAt(x, t, i);
    }
  }

  /** A text without the separator is on one side of it. */
  lemma Separated(x: string, c: char, y: string, t: string)
    requires Without(t, c) && t != ""
    ensures Contains(x + [c] + y, t) <==> Contains(x, t) || Contains(y, t)
  {
    if i: nat :| i <= |x + [c] + y| && OccursAt(x + [c] + y, t, i) {
      OccursSide(x, c, y, t, i);
    }
    if Contains(x, t) {
      ContainsWithin("", x, [c] + y, t);
      assert "" + x + ([c] + y) == x + [c] + y;
    }
    if Contains(y, t) {
      ContainsWithin(x + [c], y, "", t);
      assert x + [c] + y + "" == x + [c] + y;
    }
  }

  predicate NoPair(s: string, a: char, b: char) { forall i :: 0 <= i < |s| - 1 ==> !(s[i] == a && s[i + 1] == b) }

  lemma NoPairNoText(s: string, t: string)
    requires |t| >= 2 && NoPair(s, t[0], t[1])
    ensures !Contains(s, t)
  {
    if i: nat :| i <= |s| && OccursAt(s, t, i) {
      OccursChars(s, t, i);
      NoPairAt(s, t, i);
    }
  }

  lemma NoPairAt(s: string, t: string, i: nat)
    requires |t| >= 2 && NoPair(s, t[0], t[1]) && i + 1 < |s|
    ensures !(s[i] == t[0] && s[i + 1] == t[1])
  {
  }

  /** No such pair, and a space at the end. */
  predicate Clean(s: string, a: char, b: char) { NoPair(s, a, b) && (s != "" ==> s[|s| - 1] == ' ') }

  lemma CleanConcat(x: string, y: string, a: char, b: char)
    requires Clean(x, a, b) && Clean(y, a, b) && a != ' '
    ensures Clean(x + y, a, b)
  {
    forall i | 0 <= i < |x + y| - 1 ensures !((x + y)[i] == a && (x + y)[i + 1] == b) {
      if i >= |x| {
        assert (x + y)[i] == y[i - |x|] && (x + y)[i + 1] == y[i + 1 - |x|];
      }
    }
  }

  // ---- lower case

  lemma LowerConcat(a: string, b: string)
    ensures LowerAll(a + b) == LowerAll(a) + LowerAll(b)
  {
  }

  /** Lower case, and without the pairs that the two words would need. */
  ghost predicate Part(s: string, overwriting: bool) {
    LowerAll(s) == s && Clean(s, 'i', 's') && (!overwriting ==> Clean(s, 'o', 'v'))
  }

  lemma PartConcat(x: string, y: string, overwriting: bool)
    requires Part(x, overwriting) && Part(y, overwriting)
    ensures Part(x + y, overwriting)
  {
    LowerConcat(x, y);
    CleanConcat(x, y, 'i', 's');
    if !overwriting {
      CleanConcat(x, y, 'o', 'v');
    }
  }

  /** A word of lower-case letters without the two pairs, and the space after it. */
  ghost predicate Word(w: string, overwriting: bool) {
    && |w| > 0 && w[|w| - 1] == ' '
    && forall i :: 0 <= i < |w| ==> WordChar(w, i, overwriting)
  }

  predicate WordChar(w: string, i: nat, overwriting: bool)
    requires i < |w|
  {
    && Lower(w[i]) == w[i]
    && (i + 1 < |w| ==> !(w[i] == 'i' && w[i + 1] == 's') && (overwriting || !(w[i] == 'o' && w[i + 1] == 'v')))
  }

  lemma WordPart(w: string, overwriting: bool)
    requires Word(w, overwriting)
    ensures Part(w, overwriting)
  {
    forall i | 0 <= i < |w| ensures LowerAll(w)[i] == w[i] {
      assert WordChar(w, i, overwriting);
    }
    forall i | 0 <= i < |w| - 1
      ensures !(w[i] == 'i' && w[i + 1] == 's') && (overwriting || !(w[i] == 'o' && w[i + 1] == 'v'))
    {
      assert WordChar(w, i, overwriting);
    }
  }

  lemma SpaceWord(overwriting: bool)
    ensures Part(" ", overwriting)
  {
    var w := " ";
    assert |w| == 1;
    WordPart(w, overwriting);
  }

  lemma OverwritingWord()
    ensures Part("overwriting ", true)
  {
    var w := "overwriting ";
    assert |w| == 12;
    WordPart(w, true);
  }

  lemma PotentialWord(overwriting: bool)
    ensures Part("potential ", overwriting)
  {
    var w := "potential ";
    assert |w| == 10;
    WordPart(w, overwriting);
  }

  lemma NonTentativeWord(overwriting: bool)
    ensures Part("non-tentative ", overwriting)
  {
    var w := "non-tentative ";
    assert |w| == 14;
    WordPart(w, overwriting);
  }

  lemma UncheckedWord(overwriting: bool)
    ensures Part("unchecked ", overwriting)
  {
    var w := "unchecked ";
    assert |w| == 10;
    WordPart(w, overwriting);
  }

  lemma ErrorInWord(overwriting: bool)
    ensures Part("error in ", overwriting)
  {
    var w := "error in ";
    assert |w| == 9;
    WordPart(w, overwriting);
  }

  lemma ScopeWord(overwriting: bool)
    ensures Part("out of scope ", overwriting)
  {
    var w := "out of scope ";
    assert |w| == 13;
    WordPart(w, overwriting);
  }

  lemma PointerWord(overwriting: bool)
    ensures Part("pointer ", overwriting)
  {
    var w := "pointer ";
    assert |w| == 8;
    WordPart(w, overwriting);
  }

  lemma VariableWord(overwriting: bool)
    ensures Part("variable ", overwriting)
  {
    var w := "variable ";
    assert |w| == 9;
    WordPart(w, overwriting);
  }

  lemma EmptyPart(overwriting: bool)
    ensures Part("", overwriting)
  {
  }

  lemma KindPart(overwriting: bool)
    ensures Part(Kind(overwriting), overwriting)
  {
    SpaceWord(overwriting);
    PotentialWord(overwriting);
    if overwriting {
      OverwritingWord();
      PartConcat(" ", "overwriting ", true);
      PartConcat(" " + "overwriting ", "potential ", true);
    } else {
      PartConcat(" ", "potential ", false);
    }
  }

  lemma ErrorPart(overwriting: bool)
    ensures Part(ERROR_IN, overwriting)
  {
    UncheckedWord(overwriting);
    ErrorInWord(overwriting);
    PartConcat("unchecked ", "error in ", overwriting);
  }

  lemma VariablePart(pointer: bool, overwriting: bool)
    ensures Part(Variable(pointer), overwriting)
  {
    VariableWord(overwriting);
    if pointer {
      PointerWord(overwriting);
      PartConcat("pointer ", "variable ", overwriting);
    }
  }

  lemma PhrasePart(overwriting: bool, tentative: bool, pointer: bool)
    ensures Part(Phrase(overwriting, tentative, pointer), overwriting)
  {
    KindPart(overwriting);
    EmptyPart(overwriting);
    NonTentativeWord(overwriting);
    ErrorPart(overwriting);
    ScopeWord(overwriting);
    VariablePart(pointer, overwriting);
    var k, t, s, v := Kind(overwriting), Tentative(tentative), Scope(overwriting), Variable(pointer);
    PartsConcat(k, t, ERROR_IN, s, v, overwriting);
  }

  lemma PartsConcat(k: string, t: string, e: string, s: string, v: string, overwriting: bool)
    requires Part(k, overwriting) && Part(t, overwriting) && Part(e, overwriting)
    requires Part(s, overwriting) && Part(v, overwriting)
    ensures Part(k + t + e + s + v, overwriting)
  {
    PartConcat(k, t, overwriting);
    PartConcat(k + t, e, overwriting);
    PartConcat(k + t + e, s, overwriting);
    PartConcat(k + t + e + s, v, overwriting);
  }

  // ---- classification

  lemma KindHolds()
    ensures Contains(Kind(true), OVERWRITING)
  {
    assert "overwriting "[0..11] == OVERWRITING;
    assert OccursAt("overwriting ", OVERWRITING, 0);
    ContainsWithin(" ", "overwriting ", "potential ", OVERWRITING);
  }

  lemma ScopeHolds()
    ensures Contains(Scope(false), "out of scope")
  {
    assert Scope(false)[0..12] == "out of scope";
    assert OccursAt(Scope(false), "out of scope", 0);
  }

  lemma HeldAmong(a: string, b: string, c: string, d: string, e: string, t: string)
    ensures Contains(a, t) || Contains(d, t) ==> Contains(a + b + c + d + e, t)
  {
    if Contains(a, t) {
      ContainsWithin("", a, b + c + d + e, t);
      assert "" + a + (b + c + d + e) == a + b + c + d + e;
    }
    if Contains(d, t) {
      ContainsWithin(a + b + c, d, e, t);
    }
  }

  /** A phrase without the pair cannot hold the word. */
  lemma PartHolds(p: string, overwriting: bool)
    requires Part(p, overwriting)
    ensures LowerAll(p) == p && !Contains(p, UNSAVED) && (!overwriting ==> !Contains(p, OVERWRITING))
  {
    NoPairNoText(p, UNSAVED);
    if !overwriting {
      NoPairNoText(p, OVERWRITING);
    }
  }

  lemma PhraseHoldsWords(overwriting: bool, tentative: bool, pointer: bool)
    ensures overwriting ==> Contains(Phrase(overwriting, tentative, pointer), OVERWRITING)
    ensures !overwriting ==> Contains(Phrase(overwriting, tentative, pointer), "out of scope")
  {
    var k, t, s, v := Kind(overwriting), Tentative(tentative), Scope(overwriting), Variable(pointer);
    if overwriting {
      KindHolds();
      HeldAmong(k, t, ERROR_IN, s, v, OVERWRITING);
    } else {
      ScopeHolds();
      HeldAmong(k, t, ERROR_IN, s, v, "out of scope");
    }
  }

  /** What the phrase holds of the words the parser looks for. */
  lemma PhraseHolds(overwriting: bool, tentative: bool, pointer: bool)
    ensures var p := Phrase(overwriting, tentative, pointer);
            && LowerAll(p) == p && !Contains(p, UNSAVED) && (Contains(p, OVERWRITING) <==> overwriting)
            && (!overwriting ==> Contains(p, "out of scope"))
  {
    PhrasePart(overwriting, tentative, pointer);
    PartHolds(Phrase(overwriting, tentative, pointer), overwriting);
    PhraseHoldsWords(overwriting, tentative, pointer);
  }

  /** A text without colons and quotes is in the place, the phrase or the target. */
  lemma MessageContains(place: string, phrase: string, target: string, t: string)
    requires t != "" && Without(t, ':') && Without(t, '"')
    ensures Contains(place + ":" + (phrase + Quoted(target)), t)
       <==> Contains(place, t) || Contains(phrase, t) || Contains(target, t)
  {
    Separated(place, ':', phrase + Quoted(target), t);
    Separated(phrase, '"', target + "\"", t);
    assert phrase + ['"'] + (target + "\"") == phrase + Quoted(target);
    Separated(target, '"', "", t);
    assert target + ['"'] + "" == target + "\"";
    assert !Contains("", t);
  }

  lemma LowerMessage(place: string, phrase: string, target: string)
    requires LowerAll(phrase) == phrase
    ensures LowerAll(place + ":" + (phrase + Quoted(target)))
         == LowerAll(place) + ":" + (phrase + Quoted(LowerAll(target)))
  {
    LowerConcat(place, ":");
    LowerConcat(place + ":", phrase + Quoted(target));
    LowerConcat(phrase, Quoted(target));
    assert LowerAll(Quoted(target)) == Quoted(LowerAll(target));
  }

  /** What the parser takes a message about a variable for: the kind printed, unless the file or variable name holds the
      words of another kind that is looked for earlier. */
  function Classified(place: string, overwriting: bool, target: string): ErrorType {
    var pl, tl := LowerAll(place), LowerAll(target);
    if Contains(pl, UNSAVED) || Contains(tl, UNSAVED) then Unsaved
    else if overwriting || Contains(pl, OVERWRITING) || Contains(tl, OVERWRITING) then Overwritten
    else OutOfScope
  }

  lemma ClassifiedPhrase(place: string, phrase: string, target: string, overwriting: bool)
    requires LowerAll(phrase) == phrase && !Contains(phrase, UNSAVED)
    requires (Contains(phrase, OVERWRITING) <==> overwriting) && (!overwriting ==> Contains(phrase, "out of scope"))
    ensures TypeOf(place + ":" + (phrase + Quoted(target))) == Classified(place, overwriting, target)
  {
    var pl, tl := LowerAll(place), LowerAll(target);
    LowerMessage(place, phrase, target);
    MessageContains(pl, phrase, tl, UNSAVED);
    MessageContains(pl, phrase, tl, OVERWRITING);
    MessageContains(pl, phrase, tl, "out of scope");
  }

  /** A message about a variable is classified as printed exactly when neither its file nor its variable name holds the
      words of a kind that is looked for earlier. */
  lemma VariableMessageType(place: string, overwriting: bool, tentative: bool, pointer: bool, target: string)
    ensures TypeOf(VariableMessage(overwriting, place, tentative, pointer, target))
         == Classified(place, overwriting, target)
  {
    PhraseHolds(overwriting, tentative, pointer);
    ClassifiedPhrase(place, Phrase(overwriting, tentative, pointer), target, overwriting);
  }

  /** In names without spaces only the word of the overwritten kind can mislead. */
  lemma NamesWithoutSpaces(place: string, overwriting: bool, target: string)
    requires Without(place, ' ') && Without(target, ' ')
    ensures Classified(place, overwriting, target) ==
      if overwriting || Contains(LowerAll(place), OVERWRITING) || Contains(LowerAll(target), OVERWRITING)
      then Overwritten else OutOfScope
  {
    NoSpaceNoText(place);
    NoSpaceNoText(target);
  }

  lemma NoSpaceNoText(s: string)
    requires Without(s, ' ')
    ensures !Contains(LowerAll(s), UNSAVED)
  {
    var l := LowerAll(s);
    assert Without(l, ' ') && UNSAVED[2] == ' ';
    if i: nat :| i <= |l| && OccursAt(l, UNSAVED, i) {
      OccursChars(l, UNSAVED, i);
    }
  }

  /** An unsaved error is always classified as one. */
  lemma UnsavedMessageType(place: string, tentative: bool)
    ensures TypeOf(UnsavedMessage(place, tentative)) == Unsaved
  {
    var pre := place + ":" + (if tentative then " potential " else " potential non-tentative ") + "unchecked error ";
    LowerConcat(pre, UNSAVED);
    assert LowerAll(UNSAVED) == UNSAVED;
    ContainsSelf(UNSAVED);
    ContainsAfterAll(LowerAll(pre), UNSAVED);
    assert UnsavedMessage(place, tentative) == pre + UNSAVED;
  }

  lemma ContainsAfterAll(a: string, t: string)
    ensures Contains(a + t, t)
  {
    ContainsSelf(t);
    ContainsWithin(a, t, "", t);
    assert a + t + "" == a + t;
  }

  lemma MisfiledKind(place: string, rest: string)
    requires Without(place, ' ') && Without(rest, ' ')
    ensures Classified(place, false, OVERWRITING + rest) == Overwritten
  {
    MisfiledWord(rest);
    assert Without(OVERWRITING + rest, ' ');
    NamesWithoutSpaces(place, false, OVERWRITING + rest);
  }

  /** So an out-of-scope error in a variable whose name starts like this is filed as overwritten. */
  lemma Misfiled(place: string, tentative: bool, pointer: bool, rest: string)
    requires Without(place, ' ') && Without(rest, ' ')
    ensures TypeOf(VariableMessage(false, place, tentative, pointer, OVERWRITING + rest)) == Overwritten
  {
    MisfiledKind(place, rest);
    VariableMessageType(place, false, tentative, pointer, OVERWRITING + rest);
  }

  lemma MisfiledExample()
    ensures TypeOf(VariableMessage(false, "f.c:7", false, false, OVERWRITING + "_err")) == Overwritten
  {
    Misfiled("f.c:7", false, false, "_err");
  }

  lemma MisfiledWord(rest: string)
    ensures Contains(LowerAll(OVERWRITING + rest), OVERWRITING)
  {
    LowerConcat(OVERWRITING, rest);
    assert LowerAll(OVERWRITING) == OVERWRITING;
    assert OccursAt(OVERWRITING + LowerAll(rest), OVERWRITING, 0);
  }
}
