/**
 * The report types the behaviour of Compendium::Report is described with,
 * and what running them yields. Symbols are numbered; dates are written
 * as the integers yyyymmdd.
 */
module Scenarios {
  import opened Wrappers
  import opened Declarations
  import opened Selection
  import opened Execution
  import opened Options

  const FirstName: Name := 1
  const SecondName: Name := 2
  const ThirdName: Name := 3
  const TestName: Name := 4
  const ThroughName: Name := 5
  const IdName: Name := 6
  const LambdaMetricName: Name := 7
  const ImplicitMetricName: Name := 8

  function NoRecords(p: Params): Records { [] }

  /** Queries `first` and `second`, `third`, and `through` reading `first`. */
  function SelectionQueries(): seq<QueryDef> {
    [ QueryDef(FirstName, Root(NoRecords)),
      QueryDef(SecondName, Root(NoRecords)),
      QueryDef(ThirdName, Root(NoRecords)),
      QueryDef(ThroughName, Through(FirstName, (rs: Records) => rs)) ]
  }

  lemma SelectionQueriesWellFormed()
    ensures UniqueQueryNames(SelectionQueries()) && ParentsEarlier(SelectionQueries())
    ensures QueryNames(SelectionQueries()) == {FirstName, SecondName, ThirdName, ThroughName}
  {
    var qs := SelectionQueries();
    assert qs[0].name == FirstName && qs[1].name == SecondName && qs[2].name == ThirdName && qs[3].name == ThroughName;
  }

  /** The queries `only: s` runs on the report with `first`, `second`, `third` and `through`. */
  function RunOnlyOf(s: set<Name>, p: Params): Ran {
    var qs := SelectionQueries();
    var r := Select(QueryNames(qs), Request(Some(s), None));
    if r.Success? then RunQueries(qs, r.value, p) else map[]
  }

  /** The queries `except: s` runs on the same report. */
  function RunExceptOf(s: set<Name>, p: Params): Ran {
    var qs := SelectionQueries();
    var r := Select(QueryNames(qs), Request(None, Some(s)));
    if r.Success? then RunQueries(qs, r.value, p) else map[]
  }

  /**
   * `only: [:first, :third]` runs those two; `only: :first` does not run
   * `through`; `only: [:first, :through]` runs both.
   */
  lemma OnlyExample(p: Params)
    ensures RunOnlyOf({FirstName, ThirdName}, p).Keys == {FirstName, ThirdName}
    ensures RunOnlyOf({FirstName}, p).Keys == {FirstName}
    ensures RunOnlyOf({FirstName, ThroughName}, p).Keys == {FirstName, ThroughName}
  {
    var qs := SelectionQueries();
    SelectionQueriesWellFormed();
    RunsExactlyClosedSelection(qs, {FirstName, ThirdName}, p);
    RunsExactlyClosedSelection(qs, {FirstName}, p);
    RunsExactlyClosedSelection(qs, {FirstName, ThroughName}, p);
  }

  /**
   * `except: [:first, :third]` runs `second` only: `through` is left over
   * by the selection but its parent does not run. `except: :through` runs
   * `first` and not `through`.
   */
  lemma ExceptExample(p: Params)
    ensures RunExceptOf({FirstName, ThirdName}, p).Keys == {SecondName}
    ensures var r := RunExceptOf({ThroughName}, p);
      FirstName in r && ThroughName !in r
  {
    var qs := SelectionQueries();
    SelectionQueriesWellFormed();
    var all := QueryNames(qs);
    assert all - {FirstName, ThirdName} == {SecondName, ThroughName};
    assert all - {ThroughName} == {FirstName, SecondName, ThirdName};
    assert Select(all, Request(None, Some({FirstName, ThirdName}))) == Success({SecondName, ThroughName});
    assert Select(all, Request(None, Some({ThroughName}))) == Success({FirstName, SecondName, ThirdName});
    RunQueriesSpec(qs, {SecondName, ThroughName}, p);
    assert qs[0].name == FirstName && qs[1].name == SecondName && qs[3].fetcher.parent == FirstName;
    RunsExactlyClosedSelection(qs, {FirstName, SecondName, ThirdName}, p);
  }

  /** Ruby truthiness: every value except nil and false. */
  predicate Truthy(v: Option<Value>) {
    v.Some? && v.value != Bool(false)
  }

  /** The `test` query: one list of records when option `first` is truthy, another otherwise. */
  function TestRecords(p: Params): Records {
    if Truthy(Lookup(p, FirstName)) then [100, 200, 400, 800] else [1600, 3200, 6400]
  }

  function FirstOf(rs: Records): Records {
    if rs == [] then [] else [rs[0]]
  }

  function ThroughReport(): Descriptor {
    Descriptor("TestReport",
      [OptionDef(FirstName, Some(Bool(false)), false)],
      [QueryDef(TestName, Root(TestRecords)), QueryDef(ThroughName, Through(TestName, FirstOf))],
      [])
  }

  /**
   * The through-query reads the first of its parent's records: `[100]` for
   * a report made with `first: true`, `[1600]` for one made without it,
   * where the option's default, false, applies.
   */
  lemma ThroughExample()
    ensures var d := ThroughReport();
      var all := QueryNames(d.queries);
      var given := RunQueries(d.queries, all, ResolveParams(d.options, map[FirstName := Some(Bool(true))]));
      var omitted := RunQueries(d.queries, all, ResolveParams(d.options, map[]));
      && ThroughName in given && given[ThroughName] == [100]
      && ThroughName in omitted && omitted[ThroughName] == [1600]
  {
    var d := ThroughReport();
    var qs := d.queries;
    assert qs[0].name == TestName && qs[1].name == ThroughName;
    assert UniqueQueryNames(qs) && ParentsEarlier(qs);
    var all := QueryNames(qs);
    assert TestName in all && ThroughName in all;
    var given := ResolveParams(d.options, map[FirstName := Some(Bool(true))]);
    var omitted := ResolveParams(d.options, map[]);
    ResolveParamsValues(d.options, map[FirstName := Some(Bool(true))], 0);
    ResolveParamsValues(d.options, map[], 0);
    assert Lookup(given, FirstName) == Some(Bool(true));
    assert Lookup(omitted, FirstName) == Some(Bool(false));
    RunQueriesSpec(qs, all, given);
    RunQueriesSpec(qs, all, omitted);
  }

  function MaxOf(rs: Records): int
    decreases |rs|
  {
    if rs == [] then 0
    else if |rs| == 1 then rs[0]
    else var m := MaxOf(rs[1..]); if rs[0] > m then rs[0] else m
  }

  /** The `test` query returns the dates given as options `first` and `second`. */
  function DatesOf(p: Params): Records {
    [ if Lookup(p, FirstName).Some? && Lookup(p, FirstName).value.Int? then Lookup(p, FirstName).value.i else 0,
      if Lookup(p, SecondName).Some? && Lookup(p, SecondName).value.Int? then Lookup(p, SecondName).value.i else 0 ]
  }

  function MetricsReport(): Descriptor {
    Descriptor("",
      [OptionDef(FirstName, None, false), OptionDef(SecondName, None, false)],
      [QueryDef(TestName, Root(DatesOf))],
      [ MetricDef(LambdaMetricName, Bound(TestName, MaxOf)),
        MetricDef(ImplicitMetricName, Unbound(() => |[1, 2, 3]|)) ])
  }

  /**
   * After a run, the metric bound to `test` holds the later of the two
   * dates, and the unbound metric holds 3.
   */
  lemma MetricsExample(prev: map<Name, Option<int>>)
    requires prev.Keys == {LambdaMetricName, ImplicitMetricName}
    ensures var d := MetricsReport();
      var p := ResolveParams(d.options, map[FirstName := Some(Int(20101010)), SecondName := Some(Int(20111111))]);
      var ran := RunQueries(d.queries, {TestName}, p);
      var m := ComputeMetrics(d.metrics, ran, prev);
      && TestName in ran && ran[TestName] == [20101010, 20111111]
      && LambdaMetricName in m && m[LambdaMetricName] == Some(20111111)
      && ImplicitMetricName in m && m[ImplicitMetricName] == Some(3)
  {
    var d := MetricsReport();
    var raw := map[FirstName := Some(Int(20101010)), SecondName := Some(Int(20111111))];
    var p := ResolveParams(d.options, raw);
    ResolveParamsValues(d.options, raw, 0);
    ResolveParamsValues(d.options, raw, 1);
    assert DatesOf(p) == [20101010, 20111111];
    var qs := d.queries;
    assert UniqueQueryNames(qs) && ParentsEarlier(qs);
    RunQueriesSpec(qs, {TestName}, p);
    var ran := RunQueries(qs, {TestName}, p);
    assert ran[TestName] == [20101010, 20111111];
    var ms := d.metrics;
    assert ms[0].name == LambdaMetricName && ms[1].name == ImplicitMetricName;
    assert MetricNames(ms) == {LambdaMetricName, ImplicitMetricName};
    ComputeMetricsSpec(ms, ran, prev);
    assert MaxOf([20101010, 20111111]) == 20111111;
  }

  function IdReport(): Descriptor {
    Descriptor("", [OptionDef(IdName, None, true)], [], [])
  }

  /** A report whose `id` option must be present is valid with `id: 5` and invalid with `id: nil`. */
  lemma ValidityExample()
    ensures var os := IdReport().options;
      && IsValid(os, ResolveParams(os, map[IdName := Some(Int(5))]))
      && !IsValid(os, ResolveParams(os, map[IdName := None]))
  {
    var os := IdReport().options;
    ResolveParamsValues(os, map[IdName := Some(Int(5))], 0);
    ResolveParamsValues(os, map[IdName := None], 0);
    ValidIffRequiredPresent(os, ResolveParams(os, map[IdName := Some(Int(5))]));
    ValidIffRequiredPresent(os, ResolveParams(os, map[IdName := None]));
  }
}
