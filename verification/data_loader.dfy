/** The in-memory checks of `DataLoader` in src/data_loader.py: the
    stipulation format check and the tally of compliance results. */
module DataLoader {
  import opened Text

  /** A stipulation or a result row: a dictionary from field names to text. */
  type Record = map<string, string>

  const REQUIRED_FIELDS: seq<string> := ["id", "category", "description"]

  predicate HasRequiredFields(stip: Record) {
    forall f :: f in REQUIRED_FIELDS ==> f in stip
  }

  /** `validate_stips_format`: every stipulation must carry every required
      field; the first missing one makes the whole list invalid. */
  method ValidateStipsFormat(stips: seq<Record>) returns (valid: bool)
    ensures valid <==> forall i :: 0 <= i < |stips| ==> HasRequiredFields(stips[i])
  {
    for i := 0 to |stips|
      invariant forall j :: 0 <= j < i ==> HasRequiredFields(stips[j])
    {
      for k := 0 to |REQUIRED_FIELDS|
        invariant forall m :: 0 <= m < k ==> REQUIRED_FIELDS[m] in stips[i]
      {
        if REQUIRED_FIELDS[k] !in stips[i] {
          return false;
        }
      }
    }
    return true;
  }

  /** The three counters a result can go to. */
  datatype Outcome = Passed | Failed | Unclear

  /** `summary` as `create_summary_report` returns it. */
  datatype Summary = Summary(totalChecks: nat, passed: nat, failed: nat, unclear: nat)

  /** `result.get('status', 'UNCLEAR').upper()`: a missing status reads as
      UNCLEAR, and a given status keeps its length. */
  function NormalizedStatus(result: Record): (status: string)
    ensures "status" !in result ==> status == "UNCLEAR"
    ensures "status" in result ==> |status| == |result["status"]|
  {
    Upper(if "status" in result then result["status"] else "UNCLEAR")
  }

  /** The normalised status is its own upper-case form. */
  lemma NormalizedStatusIsUpper(result: Record)
    ensures Upper(NormalizedStatus(result)) == NormalizedStatus(result)
  {
    UpperOfUpper(if "status" in result then result["status"] else "UNCLEAR");
  }

  /** The counter a result increments. */
  function OutcomeOf(result: Record): Outcome {
    var status := NormalizedStatus(result);
    if status == "PASS" then Passed
    else if status == "FAIL" then Failed
    else Unclear
  }

  /** PASS and FAIL, whatever their case, go to their own counters, and any
      other status counts as unclear. */
  lemma OutcomeByStatus(result: Record)
    ensures OutcomeOf(result) == Passed <==> NormalizedStatus(result) == "PASS"
    ensures OutcomeOf(result) == Failed <==> NormalizedStatus(result) == "FAIL"
    ensures OutcomeOf(result) == Unclear <==> NormalizedStatus(result) !in {"PASS", "FAIL"}
  {
  }

  /** How many results go to the given counter. */
  function Count(results: seq<Record>, o: Outcome): (n: nat)
    ensures n <= |results|
    decreases |results|
  {
    if |results| == 0 then 0
    else Count(results[..|results| - 1], o) + if OutcomeOf(results[|results| - 1]) == o then 1 else 0
  }

  /** Every result goes to exactly one counter. */
  lemma {:induction false} CountsAddUp(results: seq<Record>)
    ensures Count(results, Passed) + Count(results, Failed) + Count(results, Unclear) == |results|
    decreases |results|
  {
    if |results| > 0 {
      CountsAddUp(results[..|results| - 1]);
    }
  }

  /** The summary of a list of results. */
  function Summarize(results: seq<Record>): (s: Summary)
    ensures s.totalChecks == |results|
    ensures s.passed + s.failed + s.unclear == s.totalChecks
  {
    CountsAddUp(results);
    Summary(|results|, Count(results, Passed), Count(results, Failed), Count(results, Unclear))
  }

  /** `create_summary_report`: the total is the number of results, and each
      result increments exactly one of the three counters. */
  method CreateSummaryReport(results: seq<Record>) returns (summary: Summary)
    ensures summary == Summarize(results)
    ensures summary.totalChecks == |results|
    ensures summary.passed + summary.failed + summary.unclear == summary.totalChecks
  {
    summary := Summary(|results|, 0, 0, 0);
    for i := 0 to |results|
      invariant summary == Summary(|results|, Count(results[..i], Passed),
        Count(results[..i], Failed), Count(results[..i], Unclear))
    {
      assert results[..i + 1][..i] == results[..i];
      var status := Upper(if "status" in results[i] then results[i]["status"] else "UNCLEAR");
      if status == "PASS" {
        summary := summary.(passed := summary.passed + 1);
      } else if status == "FAIL" {
        summary := summary.(failed := summary.failed + 1);
      } else {
        summary := summary.(unclear := summary.unclear + 1);
      }
    }
    assert results[..|results|] == results;
  }

  /** Appending a result adds one to the total and one to the counter its
      status selects, and leaves the other two counters as they were. */
  lemma SummaryAppend(results: seq<Record>, r: Record)
    ensures var before, after := Summarize(results), Summarize(results + [r]);
      after.totalChecks == before.totalChecks + 1 &&
      after.passed == before.passed + (if OutcomeOf(r) == Passed then 1 else 0) &&
      after.failed == before.failed + (if OutcomeOf(r) == Failed then 1 else 0) &&
      after.unclear == before.unclear + (if OutcomeOf(r) == Unclear then 1 else 0)
  {
    assert (results + [r])[..|results|] == results;
  }

  lemma {:induction false} CountAppend(a: seq<Record>, b: seq<Record>, o: Outcome)
    ensures Count(a + b, o) == Count(a, o) + Count(b, o)
    decreases |b|
  {
    if |b| == 0 {
      assert a + b == a;
    } else {
      var front, last := b[..|b| - 1], b[|b| - 1];
      CountAppend(a, front, o);
      assert (a + b)[..|a + b| - 1] == a + front;
      assert (a + b)[|a + b| - 1] == last;
      var step := if OutcomeOf(last) == o then 1 else 0;
      assert Count(a + b, o) == Count(a + front, o) + step;
      assert Count(b, o) == Count(front, o) + step;
    }
  }

  /** Taking one result out lowers only the counter that result went to. */
  lemma CountRemove(b: seq<Record>, j: nat, o: Outcome)
    requires j < |b|
    ensures Count(b, o) == Count(b[..j] + b[j + 1..], o) + if OutcomeOf(b[j]) == o then 1 else 0
  {
    assert b == b[..j] + [b[j]] + b[j + 1..];
    CountAppend(b[..j] + [b[j]], b[j + 1..], o);
    CountAppend(b[..j], [b[j]], o);
    CountAppend(b[..j], b[j + 1..], o);
    assert [b[j]][..0] == [];
  }

  lemma IndexOf(b: seq<Record>, x: Record) returns (j: nat)
    requires x in multiset(b)
    ensures j < |b| && b[j] == x
  {
    j :| 0 <= j < |b| && b[j] == x;
  }

  lemma MultisetRemove(b: seq<Record>, j: nat)
    requires j < |b|
    ensures multiset(b[..j] + b[j + 1..]) == multiset(b) - multiset{b[j]}
  {
    assert b == b[..j] + [b[j]] + b[j + 1..];
  }

  /** Dropping the last result of `a` and a matching result of `b` keeps the
      two multisets equal. */
  lemma DropMatching(a: seq<Record>, b: seq<Record>, j: nat)
    requires multiset(a) == multiset(b) && |a| > 0
    requires j < |b| && b[j] == a[|a| - 1]
    ensures multiset(a[..|a| - 1]) == multiset(b[..j] + b[j + 1..])
  {
    assert a == a[..|a| - 1] + [a[|a| - 1]];
    MultisetRemove(b, j);
  }

  /** Counts depend only on the multiset of results. */
  lemma {:induction false} CountPermutation(a: seq<Record>, b: seq<Record>, o: Outcome)
    requires multiset(a) == multiset(b)
    ensures Count(a, o) == Count(b, o)
    decreases |a|
  {
    if |a| == 0 {
      assert |b| == |multiset(b)| == 0;
    } else {
      var j := IndexOf(b, a[|a| - 1]);
      DropMatching(a, b, j);
      CountPermutation(a[..|a| - 1], b[..j] + b[j + 1..], o);
      CountRemove(b, j, o);
    }
  }

  /** The summary does not depend on the order of the results. */
  lemma SummaryPermutation(a: seq<Record>, b: seq<Record>)
    requires multiset(a) == multiset(b)
    ensures Summarize(a) == Summarize(b)
  {
    CountPermutation(a, b, Passed);
    CountPermutation(a, b, Failed);
    CountPermutation(a, b, Unclear);
    assert |a| == |multiset(a)| == |b|;
  }

  /** Status matching ignores case: a status counts like its lower-case and
      its upper-case form. */
  lemma OutcomeIgnoresCase(s: string)
    ensures OutcomeOf(map["status" := s]) == OutcomeOf(map["status" := Lower(s)])
    ensures OutcomeOf(map["status" := s]) == OutcomeOf(map["status" := Upper(s)])
  {
    UpperOfLower(s);
    UpperOfUpper(s);
  }

  /** Status matching ignores case, and a missing status or any other status
      such as UNCLEAR or ERROR counts as unclear. */
  lemma OutcomeExamples()
    ensures OutcomeOf(map["status" := "pass"]) == Passed
    ensures OutcomeOf(map["status" := "Fail"]) == Failed
    ensures OutcomeOf(map["status" := "ERROR"]) == Unclear
    ensures OutcomeOf(map[]) == Unclear
  {
    assert Upper("pass") == "PASS";
    assert Upper("Fail") == "FAIL";
    assert Upper("ERROR") == "ERROR";
    assert Upper("UNCLEAR") == "UNCLEAR";
  }

  /** When every result goes to the same counter, that counter holds them
      all. */
  lemma {:induction false} UniformCount(results: seq<Record>, o: Outcome)
    requires forall i :: 0 <= i < |results| ==> OutcomeOf(results[i]) == o
    ensures Count(results, o) == |results|
    decreases |results|
  {
    if |results| > 0 {
      UniformCount(results[..|results| - 1], o);
    }
  }

  /** When every result says PASS, every check is counted as passed. */
  lemma AllPassedSummary(results: seq<Record>)
    requires forall i :: 0 <= i < |results| ==> "status" in results[i] && results[i]["status"] == "PASS"
    ensures Summarize(results) == Summary(|results|, |results|, 0, 0)
  {
    assert Upper("PASS") == "PASS";
    UniformCount(results, Passed);
  }

  /** When every result says UNCLEAR, every check is counted as unclear. */
  lemma AllUnclearSummary(results: seq<Record>)
    requires forall i :: 0 <= i < |results| ==> "status" in results[i] && results[i]["status"] == "UNCLEAR"
    ensures Summarize(results) == Summary(|results|, 0, 0, |results|)
  {
    assert Upper("UNCLEAR") == "UNCLEAR";
    UniformCount(results, Unclear);
  }
}
