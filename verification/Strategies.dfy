/** scripts/injection/inject_lines.py: the strings each strategy injects, and both injections into one file. */
module Strategies {
  import opened Options
  import opened Text
  import opened InjectSites
  import opened InjectTwice

  /** What is put around the call at the dropping site, around the error at the origin site, and in front of the
      origin's file. */
  datatype Strings = Strings(preCall: string, postCall: string, preError: string, postError: string, prepend: string)

  const MARK := "magic_call = 12345;"
  const UNMARK := "magic_call = 0;"
  const COVER_ERROR := "if (magic_call == 12345) { " + "printf(\"INJECTION ERROR COVERED\\n\"); }"
  const RETURN_ERROR := "if (magic_call == 12345) { " + "return MPI_ERR_OTHER; }"
  const STORE_CODE := " *error_code = "
  const CHECK_CODE := " if (*error_code != MPI_SUCCESS) " + "{ return; }"
  const STORE_RETURN := "int injection_return_var = "
  const CHECK_RETURN := "if (injection_return_var != MPI_SUCCESS) " + "{ return injection_return_var; }"

  predicate KnownInjection(s: string) { s in ["coverage", "return", "nomem", "nomemcov", "none"] }

  /** The fix strategies that get past both tests: "coverage" passes the first and is then refused as unknown. */
  predicate KnownFix(s: string) { s in ["nomemcov", "error_code", "return", "none"] }

  /** None is the exception for an unknown strategy. nomem and nomemCov are the two long texts with the replaced
      allocation functions. */
  method Choose(injection: string, fix: string, nomem: string, nomemCov: string) returns (r: Option<Strings>)
    ensures r.Some? <==> KnownInjection(injection) && KnownFix(fix)
    ensures r.Some? ==> r.value == Chosen(injection, fix, nomem, nomemCov)
  {
    var preCall, postCall := MARK, UNMARK;
    var preError, postError, prepend := "", "", "";
    if injection == "coverage" {
      preError := COVER_ERROR;
    } else if injection == "return" {
      preError := RETURN_ERROR;
    } else if injection == "nomem" {
      prepend := nomem;
    } else if injection == "nomemcov" {
      prepend := nomemCov;
    } else if injection == "none" {
      preCall, postCall := "", "";
    } else {
      return None;
    }
    if fix == "coverage" {
      preCall := preCall + " printf(\"INJECTION CALL COVERED\\n\");";
    }
    if fix == "nomemcov" {
    } else if fix == "error_code" {
      preCall, postCall := preCall + STORE_CODE, postCall + CHECK_CODE;
    } else if fix == "return" {
      preCall, postCall := preCall + STORE_RETURN, postCall + CHECK_RETURN;
    } else if fix == "none" {
    } else {
      return None;
    }
    r := Some(Strings(preCall, postCall, preError, postError, prepend));
    assert preCall + "" == preCall && postCall + "" == postCall;
    assert MARK + "" == MARK && UNMARK + "" == UNMARK;
  }

  /** The strings of a known pair of strategies. */
  function Chosen(injection: string, fix: string, nomem: string, nomemCov: string): Strings {
    var mark, unmark := if injection == "none" then "" else MARK, if injection == "none" then "" else UNMARK;
    Strings(
      mark + (if fix == "error_code" then STORE_CODE else if fix == "return" then STORE_RETURN else ""),
      unmark + (if fix == "error_code" then CHECK_CODE else if fix == "return" then CHECK_RETURN else ""),
      if injection == "coverage" then COVER_ERROR else if injection == "return" then RETURN_ERROR else "",
      "",
      if injection == "nomem" then nomem else if injection == "nomemcov" then nomemCov else "")
  }

  /** What each injection strategy puts at the origin site and in front of its file; without one the dropping site gets
      no marks either. */
  lemma InjectionTable(fix: string, nomem: string, nomemCov: string)
    requires KnownFix(fix)
    ensures var s := Chosen("coverage", fix, nomem, nomemCov);
            s.preError == "if (magic_call == 12345) { " + "printf(\"INJECTION ERROR COVERED\\n\"); }" && s.prepend == ""
    ensures var s := Chosen("return", fix, nomem, nomemCov);
            s.preError == "if (magic_call == 12345) { " + "return MPI_ERR_OTHER; }" && s.prepend == ""
    ensures var s := Chosen("nomem", fix, nomem, nomemCov); s.preError == "" && s.prepend == nomem
    ensures var s := Chosen("nomemcov", fix, nomem, nomemCov); s.preError == "" && s.prepend == nomemCov
    ensures var s := Chosen("none", fix, nomem, nomemCov); s.preError == "" && s.prepend == ""
    ensures Chosen("none", "none", nomem, nomemCov) == Strings("", "", "", "", "")
  {
  }

  /** What each fix strategy puts around the call at the dropping site: the mark is set before the call and cleared
      after it, and what the call returns is stored and then checked. */
  lemma FixTable(injection: string, nomem: string, nomemCov: string)
    requires KnownInjection(injection) && injection != "none"
    ensures var s := Chosen(injection, "none", nomem, nomemCov);
            s.preCall == "magic_call = 12345;" + "" && s.postCall == "magic_call = 0;" + ""
    ensures var s := Chosen(injection, "nomemcov", nomem, nomemCov);
            s.preCall == "magic_call = 12345;" + "" && s.postCall == "magic_call = 0;" + ""
    ensures var s := Chosen(injection, "error_code", nomem, nomemCov);
            && s.preCall == "magic_call = 12345;" + " *error_code = "
            && s.postCall == "magic_call = 0;" + (" if (*error_code != MPI_SUCCESS) " + "{ return; }")
    ensures var s := Chosen(injection, "return", nomem, nomemCov);
            && s.preCall == "magic_call = 12345;" + "int injection_return_var = "
            && s.postCall == "magic_call = 0;"
                 + ("if (injection_return_var != MPI_SUCCESS) " + "{ return injection_return_var; }")
    ensures forall fix :: Chosen(injection, fix, nomem, nomemCov).postError == ""
  {
  }

  lemma PlainMarks()
    ensures NoNewline(MARK) && NoNewline(UNMARK)
  {
  }

  lemma PlainCoverError()
    ensures NoNewline(COVER_ERROR)
  {
  }

  lemma PlainReturnError()
    ensures NoNewline(RETURN_ERROR)
  {
  }

  lemma PlainStores()
    ensures NoNewline(STORE_CODE) && NoNewline(STORE_RETURN)
  {
  }

  lemma PlainCheckCode()
    ensures NoNewline(CHECK_CODE)
  {
  }

  lemma PlainCheckReturn()
    ensures NoNewline(CHECK_RETURN)
  {
  }

  /** The injection at the dropping site, which prepends nothing, and the one at the origin site. */
  function JobsOf(drop: int, origin: int, s: Strings): seq<Job> {
    [Job(drop, s.preCall, s.postCall, ""), Job(origin, s.preError, s.postError, s.prepend)]
  }

  /** The strings must not create additional lines: no pair of strategies puts a newline around a statement. */
  lemma StringsAddNoLines(drop: int, origin: int, injection: string, fix: string, nomem: string, nomemCov: string)
    ensures AllInline(JobsOf(drop, origin, Chosen(injection, fix, nomem, nomemCov)))
  {
    PlainMarks();
    PlainCoverError();
    PlainReturnError();
    PlainStores();
    PlainCheckCode();
    PlainCheckReturn();
  }

  lemma ShiftOf(drop: int, origin: int, s: Strings)
    ensures Shift(JobsOf(drop, origin, s)) == |Whole(s.prepend)|
  {
    var jobs := JobsOf(drop, origin, s);
    assert jobs[1..] == [jobs[1]] && [jobs[1]][1..] == [];
    assert Shift([jobs[1]]) == |Whole(s.prepend)| + Shift([]) && Whole("") == [];
  }

  lemma BothKeep(lines: seq<string>, jobs: seq<Job>, c: nat)
    requires FileLines(lines) && lines != [] && AllInline(jobs) && AfterAll(lines, jobs).Some? && Shift(jobs) == c
    ensures Kept(lines, AfterAll(lines, jobs).value, c)
  {
    AllKept(lines, jobs);
  }

  /** _inject_line on one file: whatever the strategies, the sites and the file, every original line is still there, in
      order, moved only by the newlines of the replaced allocation functions. */
  lemma StrategiesKeep(
    lines: seq<string>, drop: int, origin: int, injection: string, fix: string, nomem: string, nomemCov: string)
    requires FileLines(lines) && lines != []
    requires AfterAll(lines, JobsOf(drop, origin, Chosen(injection, fix, nomem, nomemCov))).Some?
    ensures var s := Chosen(injection, fix, nomem, nomemCov);
            Kept(lines, AfterAll(lines, JobsOf(drop, origin, s)).value, |Whole(s.prepend)|)
  {
    var s := Chosen(injection, fix, nomem, nomemCov);
    StringsAddNoLines(drop, origin, injection, fix, nomem, nomemCov);
    ShiftOf(drop, origin, s);
    BothKeep(lines, JobsOf(drop, origin, s), |Whole(s.prepend)|);
  }
}
