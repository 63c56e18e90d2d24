/**
 * The name of a report type, derived from its class name: `TestReport`
 * is named `test`. The `one?`-style predicates ask whether a report type
 * has a given name.
 */
module Naming {

  const Suffix: string := "Report"

  predicate EndsWith(s: string, suffix: string) {
    |suffix| <= |s| && s[|s| - |suffix|..] == suffix
  }

  predicate IsUpper(c: char) {
    'A' <= c <= 'Z'
  }

  function Lower(c: char): char {
    if IsUpper(c) then (c as int + 32) as char else c
  }

  function Upper(c: char): char {
    if 'a' <= c <= 'z' then (c as int - 32) as char else c
  }

  /** `s` with every ASCII capital letter replaced by its small letter. */
  function LowerAll(s: string): (r: string)
    ensures |r| == |s|
    ensures forall k :: 0 <= k < |s| ==> r[k] == Lower(s[k])
    decreases |s|
  {
    if s == [] then [] else [Lower(s[0])] + LowerAll(s[1..])
  }

  /** The report name: the class name without a trailing `Report`, in small letters. */
  function ReportName(className: string): (r: string)
    ensures EndsWith(className, Suffix) ==> |r| == |className| - |Suffix|
    ensures !EndsWith(className, Suffix) ==> |r| == |className|
    ensures forall k :: 0 <= k < |r| ==> r[k] == Lower(className[k])
    ensures forall k :: 0 <= k < |r| ==> !IsUpper(r[k])
  {
    var stem := if EndsWith(className, Suffix) then className[..|className| - |Suffix|] else className;
    LowerAll(stem)
  }

  /** The `one?`-style predicate: whether the report type named `className` is the `token` report. */
  predicate IsNamed(className: string, token: string)
    ensures IsNamed(className, token) ==> forall k :: 0 <= k < |token| ==> !IsUpper(token[k])
    ensures IsNamed(className, token) && EndsWith(className, Suffix) ==> |token| == |className| - |Suffix|
  {
    ReportName(className) == token
  }

  function Capitalize(s: string): string {
    if s == [] then [] else [Upper(s[0])] + s[1..]
  }

  /**
   * A report class written the usual way, a capitalised word followed by
   * `Report`, is named by that word.
   */
  lemma ReportNameOfReportClass(word: string)
    requires forall k :: 0 <= k < |word| ==> !IsUpper(word[k])
    ensures ReportName(Capitalize(word) + Suffix) == word
  {
    var className := Capitalize(word) + Suffix;
    assert className[|className| - |Suffix|..] == Suffix;
    var r := ReportName(className);
    assert |r| == |word|;
    forall k | 0 <= k < |word| ensures r[k] == word[k] {
      assert className[k] == Capitalize(word)[k];
    }
  }

  /** The predicate of one name holds of no report type that the predicate of another name holds of. */
  lemma NamesAreExclusive(className: string, token: string, other: string)
    requires token != other
    ensures !(IsNamed(className, token) && IsNamed(className, other))
  {
  }

  /** `TestReport` is named `test`. */
  lemma TestReportName()
    ensures ReportName("TestReport") == "test"
  {
    ReportNameOfReportClass("test");
    assert Capitalize("test") + Suffix == "TestReport";
  }

  /** `OneReport` is the `one` report and not the `two` report; `TwoReport` the other way round. */
  lemma OneAndTwoReports()
    ensures IsNamed("OneReport", "one") && !IsNamed("OneReport", "two")
    ensures IsNamed("TwoReport", "two") && !IsNamed("TwoReport", "one")
  {
    ReportNameOfReportClass("one");
    assert Capitalize("one") + Suffix == "OneReport";
    ReportNameOfReportClass("two");
    assert Capitalize("two") + Suffix == "TwoReport";
  }

  /**
   * The base report class answers neither `one?` nor `two?`, whether it is
   * named with its namespace or without.
   */
  lemma BaseReportIsNeitherOneNorTwo()
    ensures !IsNamed("Compendium::Report", "one") && !IsNamed("Compendium::Report", "two")
    ensures !IsNamed("Report", "one") && !IsNamed("Report", "two")
  {
    assert |ReportName("Compendium::Report")| == 12;
    assert |ReportName("Report")| == 0;
  }
}
