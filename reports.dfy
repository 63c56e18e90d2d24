/**
 * A report instance: its own copy of its type's declarations, the params it
 * was constructed with, and the state its `run` calls change — each query's
 * results (nil until the query runs) and each metric's result (nil until
 * computed). Instances share nothing, so running one leaves every other
 * instance, and the type's declarations, as they were.
 */
module Reports {
  import opened Wrappers
  import opened Declarations
  import opened Selection
  import opened Execution
  import opened Options

  class Report {
    const decl: Descriptor
    const params: Params
    /** Each declared query's results; Some once it has run. */
    var queryResults: map<Name, Option<Records>>
    /** Each declared metric's result. */
    var metricResults: map<Name, Option<int>>
    /** The results of the queries the last `run` call ran, by query name. */
    var results: Ran

    ghost predicate Valid()
      reads this
    {
      && WellFormed(decl)
      && queryResults.Keys == QueryNames(decl.queries)
      && metricResults.Keys == MetricNames(decl.metrics)
      && (forall n :: n in results ==> n in queryResults && queryResults[n] == Some(results[n]))
      && (forall i :: 0 <= i < |decl.metrics| ==> MetricAgrees(decl.metrics[i]))
    }

    /**
     * A bound metric holds its computation on its query's results once that
     * query has run, and nothing while it has not; an unbound one may hold
     * anything.
     */
    ghost predicate MetricAgrees(m: MetricDef)
      reads this
    {
      match m.compute
      case Unbound(_) => true
      case Bound(q, f) =>
        && m.name in metricResults
        && q in queryResults
        && metricResults[m.name] == (if queryResults[q].Some? then Some(f(queryResults[q].value)) else None)
    }

    /** A new report of type `d`; no query has run and no metric has a result. */
    constructor (d: Descriptor, raw: RawParams)
      requires WellFormed(d)
      ensures Valid()
      ensures decl == d && params == ResolveParams(d.options, raw)
      ensures results == map[]
      ensures forall n :: n in queryResults ==> queryResults[n] == None
      ensures forall n :: n in metricResults ==> metricResults[n] == None
    {
      decl := d;
      params := ResolveParams(d.options, raw);
      queryResults := map n | n in QueryNames(d.queries) :: None;
      metricResults := map n | n in MetricNames(d.metrics) :: None;
      results := map[];
    }

    /** Whether query `n` has run on this report. */
    predicate HasRun(n: Name)
      reads this
      ensures Valid() && HasRun(n) ==> n in QueryNames(decl.queries)
      ensures Valid() && n in results ==> HasRun(n)
    {
      n in queryResults && queryResults[n].Some?
    }

    /** The report's own validity: every required option has a present value. */
    predicate IsValid()
      reads this
      ensures IsValid() <==>
        forall i :: 0 <= i < |decl.options| && decl.options[i].required ==> !Blank(Lookup(params, decl.options[i].name))
    {
      ValidIffRequiredPresent(decl.options, params);
      Options.IsValid(decl.options, params)
    }

    /** The metrics bound to query `q`, seen through that query: the same results as the report's own. */
    function QueryMetrics(q: Name): (r: map<Name, Option<int>>)
      reads this
      ensures forall i ::
        (0 <= i < |decl.metrics| && decl.metrics[i].name in metricResults &&
         decl.metrics[i].compute.Bound? && decl.metrics[i].compute.query == q) ==> decl.metrics[i].name in r
      ensures forall n :: n in r ==> n in metricResults && r[n] == metricResults[n]
      ensures forall n :: n in r ==> exists i ::
        0 <= i < |decl.metrics| && decl.metrics[i].name == n &&
        decl.metrics[i].compute.Bound? && decl.metrics[i].compute.query == q
    {
      map n | n in metricResults &&
        (exists i :: 0 <= i < |decl.metrics| && decl.metrics[i].name == n && decl.metrics[i].compute.Bound? && decl.metrics[i].compute.query == q)
        :: metricResults[n]
    }

    /**
     * Runs the selected queries: the root queries, then the through-queries
     * whose parent ran in this call, then the metrics. A bad selection
     * changes nothing and is returned as the error.
     */
    method Run(req: Request) returns (err: Option<SelectError>)
      requires Valid()
      modifies this
      ensures Valid()
      ensures Select(QueryNames(decl.queries), req).Failure? ==>
        && err == Some(Select(QueryNames(decl.queries), req).error)
        && queryResults == old(queryResults)
        && metricResults == old(metricResults)
        && results == old(results)
      ensures Select(QueryNames(decl.queries), req).Success? ==>
        && err == None
        && results == RunQueries(decl.queries, Select(QueryNames(decl.queries), req).value, params)
        && queryResults == Record(old(queryResults), results)
        && metricResults == ComputeMetrics(decl.metrics, results, old(metricResults))
      ensures Select(QueryNames(decl.queries), req).Success? ==>
        && (forall n :: HasRun(n) <==> old(HasRun(n)) || n in results)
        && (forall n :: n in results ==> queryResults[n] == Some(results[n]))
        && (forall n :: n in old(queryResults) && n !in results ==> queryResults[n] == old(queryResults)[n])
        && (forall i :: 0 <= i < |decl.metrics| && decl.metrics[i].compute.Unbound? ==>
              metricResults[decl.metrics[i].name] == Some(decl.metrics[i].compute.value()))
    {
      var selected := Select(QueryNames(decl.queries), req);
      if selected.Failure? {
        return Some(selected.error);
      }
      var sel := selected.value;
      RunRootQueries(sel);
      RunThroughQueries(sel, old(queryResults));
      RunQueriesSpec(decl.queries, sel, params);
      RunMetrics();
      ComputeMetricsSpec(decl.metrics, results, old(metricResults));
      forall i | 0 <= i < |decl.metrics|
        ensures MetricAgrees(decl.metrics[i])
      {
        var m := decl.metrics[i];
        assert old(MetricAgrees(m));
        if m.compute.Bound? {
          var q := m.compute.query;
          assert q in QueryNames(decl.queries);
          if q in results {
            assert queryResults[q] == Some(results[q]);
          } else {
            assert queryResults[q] == old(queryResults)[q];
            assert metricResults[m.name] == old(metricResults)[m.name];
          }
        }
      }
      err := None;
    }

    /** The first pass: starts this call's results and runs the selected root queries. */
    method RunRootQueries(sel: set<Name>)
      modifies this
      ensures results == RunRoots(decl.queries, sel, params)
      ensures queryResults == Record(old(queryResults), results)
      ensures metricResults == old(metricResults)
    {
      var qs := decl.queries;
      ghost var before := queryResults;
      results := map[];
      var i := 0;
      while i < |qs|
        invariant 0 <= i <= |qs|
        invariant results == RunRoots(qs[..i], sel, params)
        invariant queryResults == Record(before, results)
        invariant metricResults == old(metricResults)
      {
        var q := qs[i];
        if q.name in sel && q.fetcher.Root? {
          var records := q.fetcher.fromParams(params);
          RecordStep(before, results, q.name, records);
          results := results[q.name := records];
          queryResults := queryResults[q.name := Some(records)];
        }
        assert qs[..i + 1][..i] == qs[..i];
        i := i + 1;
      }
      assert qs[..|qs|] == qs;
    }

    /** The second pass: runs each selected through-query whose parent has run in this call. */
    method RunThroughQueries(sel: set<Name>, ghost before: map<Name, Option<Records>>)
      requires queryResults == Record(before, results)
      modifies this
      ensures results == RunThrough(decl.queries, sel, old(results))
      ensures queryResults == Record(before, results)
      ensures metricResults == old(metricResults)
    {
      var qs := decl.queries;
      ghost var roots := results;
      var i := 0;
      while i < |qs|
        invariant 0 <= i <= |qs|
        invariant results == RunThrough(qs[..i], sel, roots)
        invariant queryResults == Record(before, results)
        invariant metricResults == old(metricResults)
      {
        var q := qs[i];
        if q.name in sel && q.fetcher.Through? && q.fetcher.parent in results {
          var records := q.fetcher.fromParent(results[q.fetcher.parent]);
          RecordStep(before, results, q.name, records);
          results := results[q.name := records];
          queryResults := queryResults[q.name := Some(records)];
        }
        assert qs[..i + 1][..i] == qs[..i];
        i := i + 1;
      }
      assert qs[..|qs|] == qs;
    }

    /** The metrics pass: unbound metrics compute, bound ones compute when their query ran in this call. */
    method RunMetrics()
      modifies this
      ensures metricResults == ComputeMetrics(decl.metrics, results, old(metricResults))
      ensures results == old(results) && queryResults == old(queryResults)
    {
      var ms := decl.metrics;
      var j := 0;
      while j < |ms|
        invariant 0 <= j <= |ms|
        invariant metricResults == ComputeMetrics(ms[..j], results, old(metricResults))
        invariant results == old(results) && queryResults == old(queryResults)
      {
        var m := ms[j];
        match m.compute {
          case Unbound(f) =>
            metricResults := metricResults[m.name := Some(f())];
          case Bound(q, f) =>
            if q in results {
              metricResults := metricResults[m.name := Some(f(results[q]))];
            }
        }
        assert ms[..j + 1][..j] == ms[..j];
        j := j + 1;
      }
      assert ms[..|ms|] == ms;
    }
  }

  /**
   * Two reports of the same type, of which only the first is run: the
   * second has no query run, no metric result and no results, and both
   * still hold the type's declarations as they were.
   */
  method RunOneOfTwo(d: Descriptor, raw1: RawParams, raw2: RawParams, req: Request)
    returns (first: Report, second: Report)
    requires WellFormed(d)
    ensures first != second
    ensures first.decl == d && second.decl == d
    ensures Select(QueryNames(d.queries), req).Success? ==>
      first.results == RunQueries(d.queries, Select(QueryNames(d.queries), req).value, first.params)
    ensures second.results == map[]
    ensures forall n :: !second.HasRun(n)
    ensures forall n :: n in second.metricResults ==> second.metricResults[n] == None
  {
    first := new Report(d, raw1);
    second := new Report(d, raw2);
    var err := first.Run(req);
  }

  /**
   * Two reports of the same type, run one after the other: each ends with
   * the results of its own params, whatever the other's run did.
   */
  method RunEachOfTwo(d: Descriptor, raw1: RawParams, raw2: RawParams, req1: Request, req2: Request)
    returns (first: Report, second: Report)
    requires WellFormed(d)
    requires Select(QueryNames(d.queries), req1).Success? && Select(QueryNames(d.queries), req2).Success?
    ensures first != second
    ensures first.params == ResolveParams(d.options, raw1) && second.params == ResolveParams(d.options, raw2)
    ensures first.results == RunQueries(d.queries, Select(QueryNames(d.queries), req1).value, first.params)
    ensures second.results == RunQueries(d.queries, Select(QueryNames(d.queries), req2).value, second.params)
  {
    first := new Report(d, raw1);
    second := new Report(d, raw2);
    var err1 := first.Run(req1);
    var err2 := second.Run(req2);
  }
}
