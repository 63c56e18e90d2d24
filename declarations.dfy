/**
 * The class-level declarations of a report type: its options, queries and
 * metrics, kept in declaration order and keyed by name. A report type's
 * declarations are a value; report instances take a copy at construction
 * and never write back to it.
 */
module Declarations {
  import opened Wrappers

  /**
   * Queries, metrics and options are named by Ruby symbols; a symbol stands
   * for its index in the interpreter's symbol table, so two names are equal
   * exactly when they are the same symbol.
   */
  type Name = nat

  /** The records a query fetches. */
  type Records = seq<int>

  /** An option value, already coerced to its kind. */
  datatype Value = Int(i: int) | Bool(b: bool) | Str(s: string)

  /** Resolved option values by option name; None stands for nil. */
  type Params = map<Name, Option<Value>>

  /** How a query obtains its records: from the params, or from its parent's records. */
  datatype Fetcher =
    | Root(fromParams: Params -> Records)
    | Through(parent: Name, fromParent: Records -> Records)

  datatype QueryDef = QueryDef(name: Name, fetcher: Fetcher)

  /** A metric either stands alone or is computed from one query's records. */
  datatype Compute =
    | Unbound(value: () -> int)
    | Bound(query: Name, fromResults: Records -> int)

  datatype MetricDef = MetricDef(name: Name, compute: Compute)

  /** An option; `required` is a presence validation on it. */
  datatype OptionDef = OptionDef(name: Name, default: Option<Value>, required: bool)

  datatype Descriptor = Descriptor(
    className: string,
    options: seq<OptionDef>,
    queries: seq<QueryDef>,
    metrics: seq<MetricDef>)

  datatype DeclError = UnknownParent(parent: Name) | UnknownQuery(query: Name)

  function QueryNameSeq(qs: seq<QueryDef>): seq<Name> {
    seq(|qs|, i requires 0 <= i < |qs| => qs[i].name)
  }

  function MetricNameSeq(ms: seq<MetricDef>): seq<Name> {
    seq(|ms|, i requires 0 <= i < |ms| => ms[i].name)
  }

  function OptionNameSeq(os: seq<OptionDef>): seq<Name> {
    seq(|os|, i requires 0 <= i < |os| => os[i].name)
  }

  function QueryNames(qs: seq<QueryDef>): set<Name> {
    set i | 0 <= i < |qs| :: qs[i].name
  }

  function MetricNames(ms: seq<MetricDef>): set<Name> {
    set i | 0 <= i < |ms| :: ms[i].name
  }

  function OptionNames(os: seq<OptionDef>): set<Name> {
    set i | 0 <= i < |os| :: os[i].name
  }

  lemma QueryNameSeqSpec(qs: seq<QueryDef>)
    ensures |QueryNameSeq(qs)| == |qs|
    ensures forall n :: n in QueryNameSeq(qs) <==> n in QueryNames(qs)
  {
    var ns := QueryNameSeq(qs);
    forall n | n in QueryNames(qs) ensures n in ns {
      var i :| 0 <= i < |qs| && qs[i].name == n;
      assert ns[i] == n;
    }
  }

  lemma MetricNameSeqSpec(ms: seq<MetricDef>)
    ensures forall n :: n in MetricNameSeq(ms) <==> n in MetricNames(ms)
  {
    var ns := MetricNameSeq(ms);
    forall n | n in MetricNames(ms) ensures n in ns {
      var i :| 0 <= i < |ms| && ms[i].name == n;
      assert ns[i] == n;
    }
  }

  lemma OptionNameSeqSpec(os: seq<OptionDef>)
    ensures forall n :: n in OptionNameSeq(os) <==> n in OptionNames(os)
  {
    var ns := OptionNameSeq(os);
    forall n | n in OptionNames(os) ensures n in ns {
      var i :| 0 <= i < |os| && os[i].name == n;
      assert ns[i] == n;
    }
  }

  predicate UniqueQueryNames(qs: seq<QueryDef>) {
    forall i, j :: 0 <= i < j < |qs| ==> qs[i].name != qs[j].name
  }

  predicate UniqueMetricNames(ms: seq<MetricDef>) {
    forall i, j :: 0 <= i < j < |ms| ==> ms[i].name != ms[j].name
  }

  predicate UniqueOptionNames(os: seq<OptionDef>) {
    forall i, j :: 0 <= i < j < |os| ==> os[i].name != os[j].name
  }

  /** Every through-query's parent is declared before it. */
  predicate ParentsEarlier(qs: seq<QueryDef>) {
    forall i {:trigger qs[i].fetcher.parent} :: 0 <= i < |qs| && qs[i].fetcher.Through? ==>
      exists j :: 0 <= j < i && qs[j].name == qs[i].fetcher.parent
  }

  /** Every bound metric names a declared query. */
  predicate MetricsBound(ms: seq<MetricDef>, qs: seq<QueryDef>) {
    forall i :: 0 <= i < |ms| && ms[i].compute.Bound? ==> ms[i].compute.query in QueryNames(qs)
  }

  /** What the declaration functions below keep true of every report type. */
  predicate WellFormed(d: Descriptor) {
    && UniqueOptionNames(d.options)
    && UniqueQueryNames(d.queries)
    && ParentsEarlier(d.queries)
    && UniqueMetricNames(d.metrics)
    && MetricsBound(d.metrics, d.queries)
  }

  /** The position of the first `n` in `ns`, if any. */
  function IndexOf(ns: seq<Name>, n: Name): (r: Option<nat>)
    ensures r.Some? ==> r.value < |ns| && ns[r.value] == n
    ensures r.Some? ==> forall j :: 0 <= j < r.value ==> ns[j] != n
    ensures r.None? <==> n !in ns
  {
    if ns == [] then None
    else if ns[0] == n then Some(0)
    else match IndexOf(ns[1..], n)
      case None => None
      case Some(k) => Some(k + 1)
  }

  /** `i` is the place of the first query named `n` in `qs`. */
  predicate FirstAt(qs: seq<QueryDef>, n: Name, i: int) {
    0 <= i < |qs| && qs[i].name == n && forall j :: 0 <= j < i ==> qs[j].name != n
  }

  /** A query named `n` is declared before place `i` of `qs`. */
  predicate DeclaredBefore(qs: seq<QueryDef>, n: Name, i: int) {
    exists j :: 0 <= j < i && j < |qs| && qs[j].name == n
  }

  /** A report type with nothing declared yet. */
  function NewReportType(className: string): (d: Descriptor)
    ensures WellFormed(d) && d.className == className
    ensures d.options == [] && d.queries == [] && d.metrics == []
  {
    Descriptor(className, [], [], [])
  }

  /**
   * Declares a query. A name already declared is overwritten in place; a
   * through-query's parent must already be declared before that place.
   */
  function DeclareQuery(d: Descriptor, q: QueryDef): (r: Result<Descriptor, DeclError>)
    ensures r.Failure? ==> q.fetcher.Through? && r.error == UnknownParent(q.fetcher.parent)
    ensures q.fetcher.Through? && q.fetcher.parent !in QueryNames(d.queries) ==> r.Failure?
    ensures q.fetcher.Through? && q.fetcher.parent == q.name ==> r.Failure?
    ensures q.name !in QueryNames(d.queries) ==>
      (r.Success? <==> q.fetcher.Root? || q.fetcher.parent in QueryNames(d.queries))
    ensures forall i :: FirstAt(d.queries, q.name, i) && q.fetcher.Through? ==>
      (r.Success? <==> DeclaredBefore(d.queries, q.fetcher.parent, i))
    ensures r.Success? ==>
      && r.value.className == d.className
      && r.value.options == d.options
      && r.value.metrics == d.metrics
      && |r.value.queries| >= |d.queries|
      && QueryNames(r.value.queries) == QueryNames(d.queries) + {q.name}
      && (exists i :: 0 <= i < |r.value.queries| && r.value.queries[i] == q)
      && (forall i :: 0 <= i < |d.queries| && d.queries[i].name != q.name ==>
            r.value.queries[i] == d.queries[i])
  {
    var names := QueryNameSeq(d.queries);
    QueryNameSeqSpec(d.queries);
    var at := IndexOf(names, q.name);
    var pos := if at.Some? then at.value else |d.queries|;
    assert at.None? ==> names[..pos] == names;
    forall i | FirstAt(d.queries, q.name, i) && q.fetcher.Through?
      ensures pos == i
      ensures q.fetcher.parent in names[..pos] <==> DeclaredBefore(d.queries, q.fetcher.parent, i)
    {
      assert names[i] == q.name;
      if q.fetcher.parent in names[..i] {
        var j :| 0 <= j < i && names[..i][j] == q.fetcher.parent;
        assert d.queries[j].name == q.fetcher.parent;
      }
      if DeclaredBefore(d.queries, q.fetcher.parent, i) {
        var j :| 0 <= j < i && j < |d.queries| && d.queries[j].name == q.fetcher.parent;
        assert names[..i][j] == q.fetcher.parent;
      }
    }
    if q.fetcher.Through? && q.fetcher.parent !in names[..pos] then
      Failure(UnknownParent(q.fetcher.parent))
    else
      var qs := if at.Some? then d.queries[pos := q] else d.queries + [q];
      assert qs[pos] == q;
      assert QueryNames(qs) == QueryNames(d.queries) + {q.name} by {
        forall n | n in QueryNames(d.queries) ensures n in QueryNames(qs) {
          var i :| 0 <= i < |d.queries| && d.queries[i].name == n;
          assert qs[i].name == n;
        }
        assert q.name in QueryNames(qs);
      }
      Success(d.(queries := qs))
  }

  /** Declares a metric, overwriting one of the same name; a bound metric's query must be declared. */
  function DeclareMetric(d: Descriptor, m: MetricDef): (r: Result<Descriptor, DeclError>)
    ensures r.Failure? <==> m.compute.Bound? && m.compute.query !in QueryNames(d.queries)
    ensures r.Failure? ==> r.error == UnknownQuery(m.compute.query)
    ensures r.Success? ==>
      && r.value.className == d.className
      && r.value.options == d.options
      && r.value.queries == d.queries
      && |r.value.metrics| >= |d.metrics|
      && MetricNames(r.value.metrics) == MetricNames(d.metrics) + {m.name}
      && (exists i :: 0 <= i < |r.value.metrics| && r.value.metrics[i] == m)
      && (forall i :: 0 <= i < |d.metrics| && d.metrics[i].name != m.name ==>
            r.value.metrics[i] == d.metrics[i])
  {
    QueryNameSeqSpec(d.queries);
    if m.compute.Bound? && m.compute.query !in QueryNameSeq(d.queries) then
      Failure(UnknownQuery(m.compute.query))
    else
      var at := IndexOf(MetricNameSeq(d.metrics), m.name);
      MetricNameSeqSpec(d.metrics);
      var ms := if at.Some? then d.metrics[at.value := m] else d.metrics + [m];
      var pos := if at.Some? then at.value else |d.metrics|;
      assert ms[pos] == m;
      assert MetricNames(ms) == MetricNames(d.metrics) + {m.name} by {
        forall n | n in MetricNames(d.metrics) ensures n in MetricNames(ms) {
          var i :| 0 <= i < |d.metrics| && d.metrics[i].name == n;
          assert ms[i].name == n;
        }
        assert m.name in MetricNames(ms);
      }
      Success(d.(metrics := ms))
  }

  /** Declares an option, overwriting one of the same name. */
  function DeclareOption(d: Descriptor, o: OptionDef): (r: Descriptor)
    ensures r.className == d.className && r.queries == d.queries && r.metrics == d.metrics
    ensures |r.options| >= |d.options|
    ensures OptionNames(r.options) == OptionNames(d.options) + {o.name}
    ensures exists i :: 0 <= i < |r.options| && r.options[i] == o
    ensures forall i :: 0 <= i < |d.options| && d.options[i].name != o.name ==> r.options[i] == d.options[i]
  {
    var at := IndexOf(OptionNameSeq(d.options), o.name);
    OptionNameSeqSpec(d.options);
    var os := if at.Some? then d.options[at.value := o] else d.options + [o];
    var pos := if at.Some? then at.value else |d.options|;
    assert os[pos] == o;
    assert OptionNames(os) == OptionNames(d.options) + {o.name} by {
      forall n | n in OptionNames(d.options) ensures n in OptionNames(os) {
        var i :| 0 <= i < |d.options| && d.options[i].name == n;
        assert os[i].name == n;
      }
      assert o.name in OptionNames(os);
    }
    d.(options := os)
  }

  lemma DeclareQueryKeepsWellFormed(d: Descriptor, q: QueryDef)
    requires WellFormed(d)
    requires DeclareQuery(d, q).Success?
    ensures WellFormed(DeclareQuery(d, q).value)
  {
    var r := DeclareQuery(d, q).value;
    var names := QueryNameSeq(d.queries);
    QueryNameSeqSpec(d.queries);
    var at := IndexOf(names, q.name);
    var pos := if at.Some? then at.value else |d.queries|;
    var qs := r.queries;
    assert |qs| == pos + 1 || |qs| == |d.queries|;
    assert qs[pos] == q by {
      assert qs == if at.Some? then d.queries[pos := q] else d.queries + [q];
    }
    assert forall i :: 0 <= i < |qs| ==> qs[i].name == (if i < |d.queries| then d.queries[i].name else q.name) by {
      assert qs == if at.Some? then d.queries[pos := q] else d.queries + [q];
    }
    assert ParentsEarlier(qs) by {
      forall i | 0 <= i < |qs| && qs[i].fetcher.Through?
        ensures exists j :: 0 <= j < i && qs[j].name == qs[i].fetcher.parent
      {
        if i == pos {
          assert q.fetcher.parent in names[..pos];
          var j :| 0 <= j < pos && names[..pos][j] == q.fetcher.parent;
          assert qs[j].name == q.fetcher.parent;
        } else {
          assert qs[i] == d.queries[i];
          var j :| 0 <= j < i && d.queries[j].name == d.queries[i].fetcher.parent;
          assert qs[j].name == d.queries[j].name;
        }
      }
    }
  }

  lemma DeclareMetricKeepsWellFormed(d: Descriptor, m: MetricDef)
    requires WellFormed(d)
    requires DeclareMetric(d, m).Success?
    ensures WellFormed(DeclareMetric(d, m).value)
  {
    var ms := DeclareMetric(d, m).value.metrics;
    var at := IndexOf(MetricNameSeq(d.metrics), m.name);
    MetricNameSeqSpec(d.metrics);
    assert ms == if at.Some? then d.metrics[at.value := m] else d.metrics + [m];
  }

  lemma DeclareOptionKeepsWellFormed(d: Descriptor, o: OptionDef)
    requires WellFormed(d)
    ensures WellFormed(DeclareOption(d, o))
  {
    var os := DeclareOption(d, o).options;
    var at := IndexOf(OptionNameSeq(d.options), o.name);
    OptionNameSeqSpec(d.options);
    assert os == if at.Some? then d.options[at.value := o] else d.options + [o];
  }
}
