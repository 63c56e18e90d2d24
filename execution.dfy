/**
 * What one `run` call computes, as functions of the declarations, the
 * selected query names and the params. Root queries run first, in
 * declaration order; then through-queries, in declaration order, each only
 * when it is selected and its parent ran earlier in the same call; then the
 * metrics. The runner in Reports is proved to compute exactly these.
 */
module Execution {
  import opened Wrappers
  import opened Declarations
  import opened Selection

  /** The records of every query that ran in one call, by query name. */
  type Ran = map<Name, Records>

  /** The first pass: every selected root query fetches from the params. */
  function RunRoots(qs: seq<QueryDef>, sel: set<Name>, p: Params): Ran
    decreases |qs|
  {
    if qs == [] then map[]
    else
      var ran := RunRoots(qs[..|qs| - 1], sel, p);
      var q := qs[|qs| - 1];
      if q.name in sel && q.fetcher.Root? then ran[q.name := q.fetcher.fromParams(p)] else ran
  }

  /** The second pass: a selected through-query fetches from its parent's records, if its parent ran. */
  function RunThrough(qs: seq<QueryDef>, sel: set<Name>, ran0: Ran): Ran
    decreases |qs|
  {
    if qs == [] then ran0
    else
      var ran := RunThrough(qs[..|qs| - 1], sel, ran0);
      var q := qs[|qs| - 1];
      if q.name in sel && q.fetcher.Through? && q.fetcher.parent in ran then
        ran[q.name := q.fetcher.fromParent(ran[q.fetcher.parent])]
      else ran
  }

  function RunQueries(qs: seq<QueryDef>, sel: set<Name>, p: Params): Ran {
    RunThrough(qs, sel, RunRoots(qs, sel, p))
  }

  /**
   * Metric results after a call that ran `ran`: an unbound metric always
   * computes, a bound one computes from its query's records when that query
   * ran, and any other metric keeps its earlier result.
   */
  function ComputeMetrics(ms: seq<MetricDef>, ran: Ran, prev: map<Name, Option<int>>): map<Name, Option<int>>
    decreases |ms|
  {
    if ms == [] then prev
    else
      var acc := ComputeMetrics(ms[..|ms| - 1], ran, prev);
      var m := ms[|ms| - 1];
      match m.compute
      case Unbound(f) => acc[m.name := Some(f())]
      case Bound(q, f) => if q in ran then acc[m.name := Some(f(ran[q]))] else acc
  }

  /** Per-query results after a call: the queries that ran get their new records, the rest keep theirs. */
  function Record(prev: map<Name, Option<Records>>, ran: Ran): (r: map<Name, Option<Records>>)
    ensures r.Keys == prev.Keys + ran.Keys
    ensures forall n :: n in ran ==> r[n] == Some(ran[n])
    ensures forall n :: n in prev && n !in ran ==> r[n] == prev[n]
  {
    map n | n in prev.Keys + ran.Keys :: if n in ran then Some(ran[n]) else prev[n]
  }

  /** The names of the root queries among `qs`. */
  function RootNames(qs: seq<QueryDef>): set<Name> {
    set i | 0 <= i < |qs| && qs[i].fetcher.Root? :: qs[i].name
  }

  /** The names of the through-queries among `qs`. */
  function ThroughNames(qs: seq<QueryDef>): set<Name> {
    set i | 0 <= i < |qs| && qs[i].fetcher.Through? :: qs[i].name
  }

  /** Recording one more query that ran. */
  lemma RecordStep(prev: map<Name, Option<Records>>, ran: Ran, n: Name, records: Records)
    ensures Record(prev, ran[n := records]) == Record(prev, ran)[n := Some(records)]
  {
  }

  /** The first pass runs exactly the selected root queries, each on the params. */
  lemma {:induction false} RunRootsSpec(qs: seq<QueryDef>, sel: set<Name>, p: Params)
    requires UniqueQueryNames(qs)
    ensures var rr := RunRoots(qs, sel, p);
      && rr.Keys == sel * RootNames(qs)
      && (forall i :: 0 <= i < |qs| && qs[i].fetcher.Root? && qs[i].name in rr ==>
            rr[qs[i].name] == qs[i].fetcher.fromParams(p))
    decreases |qs|
  {
    if qs != [] {
      var init := qs[..|qs| - 1];
      var q := qs[|qs| - 1];
      RunRootsSpec(init, sel, p);
      var rr0 := RunRoots(init, sel, p);
      var rr := RunRoots(qs, sel, p);
      assert q.name !in RootNames(init);
      assert RootNames(qs) == RootNames(init) + (if q.fetcher.Root? then {q.name} else {}) by {
        forall n | n in RootNames(init) ensures n in RootNames(qs) {
          var i :| 0 <= i < |init| && init[i].fetcher.Root? && init[i].name == n;
          assert qs[i] == init[i];
        }
        if q.fetcher.Root? {
          assert qs[|qs| - 1] == q;
        }
      }
      if q.name in sel && q.fetcher.Root? {
        assert rr == rr0[q.name := q.fetcher.fromParams(p)];
      } else {
        assert rr == rr0;
      }
      forall i | 0 <= i < |qs| && qs[i].fetcher.Root? && qs[i].name in rr
        ensures rr[qs[i].name] == qs[i].fetcher.fromParams(p)
      {
        if i < |init| {
          assert init[i] == qs[i];
        }
      }
    }
  }

  lemma ParentsEarlierPrefix(qs: seq<QueryDef>, k: nat)
    requires ParentsEarlier(qs) && k <= |qs|
    ensures ParentsEarlier(qs[..k])
  {
    forall i | 0 <= i < k && qs[..k][i].fetcher.Through?
      ensures exists j :: 0 <= j < i && qs[..k][j].name == qs[..k][i].fetcher.parent
    {
      var j :| 0 <= j < i && qs[j].name == qs[i].fetcher.parent;
      assert qs[..k][j].name == qs[j].name;
    }
  }

  lemma ThroughNamesSplit(qs: seq<QueryDef>)
    requires qs != []
    ensures var q := qs[|qs| - 1];
      ThroughNames(qs) == ThroughNames(qs[..|qs| - 1]) + (if q.fetcher.Through? then {q.name} else {})
  {
    var init := qs[..|qs| - 1];
    forall n | n in ThroughNames(init) ensures n in ThroughNames(qs) {
      var i :| 0 <= i < |init| && init[i].fetcher.Through? && init[i].name == n;
      assert qs[i] == init[i];
    }
    var q := qs[|qs| - 1];
    if q.fetcher.Through? {
      assert q.name in ThroughNames(qs);
    }
  }

  /** The second pass keeps every record it is given and adds only selected through-queries. */
  lemma {:induction false} RunThroughGrows(qs: seq<QueryDef>, sel: set<Name>, ran0: Ran)
    requires UniqueQueryNames(qs)
    requires ThroughNames(qs) !! ran0.Keys
    ensures var rt := RunThrough(qs, sel, ran0);
      && rt.Keys <= ran0.Keys + sel * ThroughNames(qs)
      && (forall n :: n in ran0 ==> n in rt && rt[n] == ran0[n])
    decreases |qs|
  {
    if qs != [] {
      var init := qs[..|qs| - 1];
      var q := qs[|qs| - 1];
      ThroughNamesSplit(qs);
      RunThroughGrows(init, sel, ran0);
    }
  }

  /** One step of the second pass. */
  lemma RunThroughLast(qs: seq<QueryDef>, sel: set<Name>, ran0: Ran)
    requires qs != []
    ensures var q := qs[|qs| - 1];
      var rt0 := RunThrough(qs[..|qs| - 1], sel, ran0);
      RunThrough(qs, sel, ran0) ==
        if q.name in sel && q.fetcher.Through? && q.fetcher.parent in rt0
        then rt0[q.name := q.fetcher.fromParent(rt0[q.fetcher.parent])] else rt0
  {
  }

  /**
   * A through-query has records after the second pass exactly when it is
   * selected and its parent has records, and they are its fetcher applied
   * to the parent's.
   */
  lemma {:induction false} RunThroughAt(qs: seq<QueryDef>, sel: set<Name>, ran0: Ran, i: nat)
    requires UniqueQueryNames(qs) && ParentsEarlier(qs)
    requires ThroughNames(qs) !! ran0.Keys
    requires i < |qs| && qs[i].fetcher.Through?
    ensures var rt := RunThrough(qs, sel, ran0);
      && (qs[i].name in rt <==> qs[i].name in sel && qs[i].fetcher.parent in rt)
      && (qs[i].name in rt ==> rt[qs[i].name] == qs[i].fetcher.fromParent(rt[qs[i].fetcher.parent]))
    decreases |qs|
  {
    var last := |qs| - 1;
    var init := qs[..last];
    var q := qs[last];
    var rt0 := RunThrough(init, sel, ran0);
    RunThroughLast(qs, sel, ran0);
    var n, par := qs[i].name, qs[i].fetcher.parent;
    assert par != q.name by {
      var j :| 0 <= j < i && qs[j].name == par;
    }
    if i < last {
      assert n != q.name;
      ParentsEarlierPrefix(qs, last);
      assert ThroughNames(init) <= ThroughNames(qs) by {
        ThroughNamesSplit(qs);
      }
      RunThroughAt(init, sel, ran0, i);
      assert init[i] == qs[i];
    } else {
      assert n !in rt0 by {
        RunThroughGrows(init, sel, ran0);
        ThroughNamesSplit(qs);
        assert n !in ThroughNames(init);
      }
    }
  }

  lemma RunThroughSpec(qs: seq<QueryDef>, sel: set<Name>, ran0: Ran)
    requires UniqueQueryNames(qs) && ParentsEarlier(qs)
    requires ThroughNames(qs) !! ran0.Keys
    ensures var rt := RunThrough(qs, sel, ran0);
      forall i :: 0 <= i < |qs| && qs[i].fetcher.Through? ==>
        && (qs[i].name in rt <==> qs[i].name in sel && qs[i].fetcher.parent in rt)
        && (qs[i].name in rt ==> rt[qs[i].name] == qs[i].fetcher.fromParent(rt[qs[i].fetcher.parent]))
  {
    forall i | 0 <= i < |qs| && qs[i].fetcher.Through? {
      RunThroughAt(qs, sel, ran0, i);
    }
  }

  /**
   * The reference characterisation of a run: a root query runs exactly when
   * selected and fetches from the params; a through-query runs exactly when
   * selected and its parent ran, and fetches from its parent's records;
   * nothing else runs.
   */
  lemma RunQueriesSpec(qs: seq<QueryDef>, sel: set<Name>, p: Params)
    requires UniqueQueryNames(qs) && ParentsEarlier(qs)
    ensures var r := RunQueries(qs, sel, p);
      && r.Keys <= sel * QueryNames(qs)
      && (forall i :: 0 <= i < |qs| && qs[i].fetcher.Root? ==>
            (qs[i].name in r <==> qs[i].name in sel)
            && (qs[i].name in r ==> r[qs[i].name] == qs[i].fetcher.fromParams(p)))
      && (forall i :: 0 <= i < |qs| && qs[i].fetcher.Through? ==>
            (qs[i].name in r <==> qs[i].name in sel && qs[i].fetcher.parent in r)
            && (qs[i].name in r ==> r[qs[i].name] == qs[i].fetcher.fromParent(r[qs[i].fetcher.parent])))
  {
    var rr := RunRoots(qs, sel, p);
    RunRootsSpec(qs, sel, p);
    assert RootNames(qs) !! ThroughNames(qs) by {
      forall n | n in RootNames(qs) ensures n !in ThroughNames(qs) {
        var i :| 0 <= i < |qs| && qs[i].fetcher.Root? && qs[i].name == n;
        assert forall j :: 0 <= j < |qs| && qs[j].name == n ==> j == i;
      }
    }
    RunThroughGrows(qs, sel, rr);
    RunThroughSpec(qs, sel, rr);
    assert RootNames(qs) + ThroughNames(qs) <= QueryNames(qs);
    forall i | 0 <= i < |qs| && qs[i].fetcher.Root?
      ensures qs[i].name in RootNames(qs)
    {
    }
  }

  /** One step of the metrics pass. */
  lemma ComputeMetricsLast(ms: seq<MetricDef>, ran: Ran, prev: map<Name, Option<int>>)
    requires ms != []
    ensures var m := ms[|ms| - 1];
      var acc := ComputeMetrics(ms[..|ms| - 1], ran, prev);
      ComputeMetrics(ms, ran, prev) ==
        match m.compute
        case Unbound(f) => acc[m.name := Some(f())]
        case Bound(q, f) => if q in ran then acc[m.name := Some(f(ran[q]))] else acc
  {
  }

  lemma MetricNamesSplit(ms: seq<MetricDef>)
    requires ms != []
    ensures MetricNames(ms) == MetricNames(ms[..|ms| - 1]) + {ms[|ms| - 1].name}
  {
    var init := ms[..|ms| - 1];
    forall n | n in MetricNames(init) ensures n in MetricNames(ms) {
      var i :| 0 <= i < |init| && init[i].name == n;
      assert ms[i] == init[i];
    }
    assert ms[|ms| - 1].name in MetricNames(ms);
  }

  /** The metrics pass touches only the metrics it is given, and adds or drops none. */
  lemma {:induction false} ComputeMetricsFrame(ms: seq<MetricDef>, ran: Ran, prev: map<Name, Option<int>>)
    requires MetricNames(ms) <= prev.Keys
    ensures var r := ComputeMetrics(ms, ran, prev);
      && r.Keys == prev.Keys
      && (forall n :: n in prev && n !in MetricNames(ms) ==> r[n] == prev[n])
    decreases |ms|
  {
    if ms != [] {
      MetricNamesSplit(ms);
      ComputeMetricsLast(ms, ran, prev);
      ComputeMetricsFrame(ms[..|ms| - 1], ran, prev);
    }
  }

  /**
   * The metric characterisation: an unbound metric holds its value, a bound
   * one holds its computation on its query's records when the query ran, and
   * otherwise its earlier result.
   */
  lemma {:induction false} ComputeMetricsAt(ms: seq<MetricDef>, ran: Ran, prev: map<Name, Option<int>>, i: nat)
    requires UniqueMetricNames(ms)
    requires MetricNames(ms) <= prev.Keys
    requires i < |ms|
    ensures var r := ComputeMetrics(ms, ran, prev);
      && ms[i].name in r
      && (ms[i].compute.Unbound? ==> r[ms[i].name] == Some(ms[i].compute.value()))
      && (ms[i].compute.Bound? && ms[i].compute.query in ran ==>
            r[ms[i].name] == Some(ms[i].compute.fromResults(ran[ms[i].compute.query])))
      && (ms[i].compute.Bound? && ms[i].compute.query !in ran ==> r[ms[i].name] == prev[ms[i].name])
    decreases |ms|
  {
    var last := |ms| - 1;
    var init := ms[..last];
    ComputeMetricsLast(ms, ran, prev);
    MetricNamesSplit(ms);
    ComputeMetricsFrame(init, ran, prev);
    if i < last {
      assert ms[i].name != ms[last].name;
      ComputeMetricsAt(init, ran, prev, i);
      assert init[i] == ms[i];
    } else if ms[i].compute.Bound? && ms[i].compute.query !in ran {
      assert ms[i].name !in MetricNames(init);
    }
  }

  lemma ComputeMetricsSpec(ms: seq<MetricDef>, ran: Ran, prev: map<Name, Option<int>>)
    requires UniqueMetricNames(ms)
    requires MetricNames(ms) <= prev.Keys
    ensures var r := ComputeMetrics(ms, ran, prev);
      && r.Keys == prev.Keys
      && (forall n :: n in prev && n !in MetricNames(ms) ==> r[n] == prev[n])
      && (forall i :: 0 <= i < |ms| && ms[i].compute.Unbound? ==> r[ms[i].name] == Some(ms[i].compute.value()))
      && (forall i :: 0 <= i < |ms| && ms[i].compute.Bound? && ms[i].compute.query in ran ==>
            r[ms[i].name] == Some(ms[i].compute.fromResults(ran[ms[i].compute.query])))
      && (forall i :: 0 <= i < |ms| && ms[i].compute.Bound? && ms[i].compute.query !in ran ==>
            r[ms[i].name] == prev[ms[i].name])
  {
    ComputeMetricsFrame(ms, ran, prev);
    forall i | 0 <= i < |ms| {
      ComputeMetricsAt(ms, ran, prev, i);
    }
  }

  /** A selection that names the parent of every through-query it names. */
  predicate ClosedUnderParent(qs: seq<QueryDef>, sel: set<Name>) {
    forall i :: 0 <= i < |qs| && qs[i].fetcher.Through? && qs[i].name in sel ==> qs[i].fetcher.parent in sel
  }

  /** Under a selection closed under parents, every selected query runs. */
  lemma {:induction false} ClosedSelectionRuns(qs: seq<QueryDef>, sel: set<Name>, p: Params, i: nat)
    requires UniqueQueryNames(qs) && ParentsEarlier(qs) && ClosedUnderParent(qs, sel)
    requires i < |qs| && qs[i].name in sel
    ensures qs[i].name in RunQueries(qs, sel, p)
    decreases i
  {
    RunQueriesSpec(qs, sel, p);
    if qs[i].fetcher.Through? {
      var j :| 0 <= j < i && qs[j].name == qs[i].fetcher.parent;
      ClosedSelectionRuns(qs, sel, p, j);
    }
  }

  /** The queries that run are exactly the selection when it is closed under parents. */
  lemma RunsExactlyClosedSelection(qs: seq<QueryDef>, sel: set<Name>, p: Params)
    requires UniqueQueryNames(qs) && ParentsEarlier(qs) && ClosedUnderParent(qs, sel)
    requires sel <= QueryNames(qs)
    ensures RunQueries(qs, sel, p).Keys == sel
  {
    RunQueriesSpec(qs, sel, p);
    forall n | n in sel ensures n in RunQueries(qs, sel, p) {
      var i :| 0 <= i < |qs| && qs[i].name == n;
      ClosedSelectionRuns(qs, sel, p, i);
    }
  }

  /** With no `only` and no `except`, every declared query runs. */
  lemma RunWithoutSelectionRunsAll(d: Descriptor, p: Params)
    requires WellFormed(d)
    ensures Select(QueryNames(d.queries), RunAll).Success?
    ensures RunQueries(d.queries, Select(QueryNames(d.queries), RunAll).value, p).Keys == QueryNames(d.queries)
  {
    var qs := d.queries;
    forall i | 0 <= i < |qs| && qs[i].fetcher.Through? && qs[i].name in QueryNames(qs)
      ensures qs[i].fetcher.parent in QueryNames(qs)
    {
      var j :| 0 <= j < i && qs[j].name == qs[i].fetcher.parent;
    }
    RunsExactlyClosedSelection(qs, QueryNames(qs), p);
  }

  /** A report that declares no query has no results after a run. */
  lemma RunWithoutQueriesIsEmpty(d: Descriptor, req: Request, p: Params)
    requires d.queries == []
    requires Select(QueryNames(d.queries), req).Success?
    ensures RunQueries(d.queries, Select(QueryNames(d.queries), req).value, p) == map[]
  {
  }

  /**
   * `only: S` runs nothing outside S, and runs all of S when S names the
   * parent of each through-query in it.
   */
  lemma RunOnly(d: Descriptor, s: set<Name>, p: Params)
    requires WellFormed(d)
    requires s <= QueryNames(d.queries)
    ensures var sel := Select(QueryNames(d.queries), Request(Some(s), None));
      && sel == Success(s)
      && RunQueries(d.queries, s, p).Keys <= s
      && (ClosedUnderParent(d.queries, s) ==> RunQueries(d.queries, s, p).Keys == s)
  {
    RunQueriesSpec(d.queries, s, p);
    if ClosedUnderParent(d.queries, s) {
      RunsExactlyClosedSelection(d.queries, s, p);
    }
  }

  /** Under `only`, a through-query whose parent is not named does not run, even when it is named. */
  lemma RunOnlyWithoutParent(d: Descriptor, s: set<Name>, p: Params, i: nat)
    requires WellFormed(d)
    requires i < |d.queries| && d.queries[i].fetcher.Through? && d.queries[i].fetcher.parent !in s
    ensures d.queries[i].name !in RunQueries(d.queries, s, p)
  {
    RunQueriesSpec(d.queries, s, p);
  }

  /**
   * `except: S` runs no query in S, runs every root query outside S, and
   * runs every query outside S when no query outside S has its parent in S.
   */
  lemma RunExcept(d: Descriptor, s: set<Name>, p: Params)
    requires WellFormed(d)
    requires s <= QueryNames(d.queries)
    ensures var sel := Select(QueryNames(d.queries), Request(None, Some(s)));
      && sel == Success(QueryNames(d.queries) - s)
      && RunQueries(d.queries, sel.value, p).Keys <= QueryNames(d.queries) - s
      && (forall i :: 0 <= i < |d.queries| && d.queries[i].fetcher.Root? && d.queries[i].name !in s ==>
            d.queries[i].name in RunQueries(d.queries, sel.value, p))
      && (ClosedUnderParent(d.queries, QueryNames(d.queries) - s) ==>
            RunQueries(d.queries, sel.value, p).Keys == QueryNames(d.queries) - s)
  {
    var rest := QueryNames(d.queries) - s;
    RunQueriesSpec(d.queries, rest, p);
    forall i | 0 <= i < |d.queries| && d.queries[i].fetcher.Root? && d.queries[i].name !in s
      ensures d.queries[i].name in rest
    {
    }
    if ClosedUnderParent(d.queries, rest) {
      RunsExactlyClosedSelection(d.queries, rest, p);
    }
  }

  /**
   * Excluding a query's parent excludes the query too: a through-query
   * never runs in a call where its parent did not.
   */
  lemma ThroughNeedsParent(qs: seq<QueryDef>, sel: set<Name>, p: Params, i: nat)
    requires UniqueQueryNames(qs) && ParentsEarlier(qs)
    requires i < |qs| && qs[i].fetcher.Through?
    requires qs[i].fetcher.parent !in RunQueries(qs, sel, p)
    ensures qs[i].name !in RunQueries(qs, sel, p)
  {
    RunQueriesSpec(qs, sel, p);
  }
}
