# Compendium reports in Dafny

Compendium is a Ruby library for declarative reports. A report class declares named
**options** (its inputs), **queries** and **metrics**:
- A query fetches records, either from the report's params (a *root* query) or from
  the records of another query (a *through* query, `through: :parent`).
- A metric computes a value, either from one query's records (a *bound* metric) or on
  its own (an *unbound* metric).

Each report instance owns its copy of these declarations and its own run state.
`run` executes a selection of the queries, chosen with `only:` or `except:`, and then
the metrics. `report_name` derives a report type's name from its class name, and
`valid?` checks the options' presence validations.

The behaviour modelled here is the behaviour that `spec/report_spec.rb` pins down for
`Compendium::Report`.

Modules:
- `Wrappers`: `Option` (nil) and `Result` (raised errors).
- `Declarations`: the report type's registry.
  - The types `QueryDef`, `MetricDef`, `OptionDef` and `Descriptor`.
  - `DeclareQuery`, `DeclareMetric` and `DeclareOption`, each of which overwrites by name.
  - The invariant `WellFormed` that they keep: names are unique, every through-query's
    parent is declared before it, and every bound metric names a declared query.
- `Selection`: `Select`, which turns `only:` / `except:` into the set of queries to run,
  or into an argument error.
- `Execution`: what one run computes, as functions.
  - `RunRoots`: the selected root queries, in declaration order.
  - `RunThrough`: the selected through-queries whose parent ran in the same call.
  - `ComputeMetrics` and `Record`.
  - The lemmas that characterise these functions and their consequences for
    `only:` and `except:`.
- `Options`: params resolution (a given value, else the default) and the presence
  validation behind `valid?`.
- `Naming`: `report_name` and the `one?`-style predicates.
- `Reports`: the class `Report`.
  - Its constructor and `Run`. `Run` is three loops, each proved against the functions
    of `Execution`.
  - `HasRun` (`has_run?`), `IsValid` (`valid?`) and `QueryMetrics` (`query.metrics`).
  - Two client methods that show instances do not affect each other.
- `Scenarios`: the concrete report classes of the test file and what running them yields.

Modelling choices:
- Query, metric and option names are Ruby symbols. Each is modelled by its index in the
  symbol table (`Name = nat`), so names are equal exactly when they are the same symbol.
- A `run` call's `only:` and `except:` are sets. A single symbol is a one-element set.
- Fetchers and metric computations are pure, total functions:
  - a root fetcher maps params to records (`seq<int>`);
  - a through fetcher maps the parent's records to records;
  - a bound metric maps records to an `int`;
  - an unbound metric takes no argument.

  Dates are written as integers (yyyymmdd).
- A through-query runs only when it is selected and its parent ran earlier in the same
  call. So excluding a parent with `except:` also keeps its through-queries from
  running. No test exercises that case; it follows from the rule.
- A `through:` parent must already be declared before the place the through-query
  takes. This keeps every parent before its children, so one pass in declaration order
  runs whole chains.
- A query that has run keeps its results until it runs again. A bound metric always
  agrees with its query: it holds its computation on the query's results once the query
  has run, and nil until then.
- The per-query objects of an instance are flattened into maps keyed by name
  (`queryResults`, `metricResults`) on the `Report` object. Distinct `Report` objects
  therefore never share state, and `Run` modifies only `this`. The type's
  declarations are an immutable `Descriptor` value that carries no run state, so a run
  cannot change them.
- A query has run exactly when its results are non-nil: `queryResults` holds `Some(records)` once it has run. A fetcher always returns a sequence of records, possibly empty, so a query that runs and returns nil (such as `query(:third) {}`) is modelled as returning no records.
- Params keep only declared options. An option whose name was not passed takes its
  default. An option passed explicitly as nil stays nil.

## Model

| member | source | states |
|---|---|---|
| `Declarations.NewReportType` | spec/report_spec.rb:4-7 | a report type starts with no queries and no options (and no metrics), and is well formed |
| `Declarations.DeclareQuery` | spec/report_spec.rb:89-94 | declaring a query adds its name, overwrites a same-named query in place, and leaves every other query, metric and option as it was; a through-query whose parent is not declared (or is itself) is refused; when it redeclares an existing query, it is accepted exactly when its parent is declared before that query's place |
| `Declarations.DeclareMetric` | spec/report_spec.rb:47-49 | declaring a metric adds or overwrites it by name and nothing else; it is refused exactly when it is bound to an undeclared query |
| `Declarations.DeclareOption` | spec/report_spec.rb:40-41 | declaring an option adds or overwrites it by name and nothing else |
| `Declarations.DeclareQueryKeepsWellFormed` | spec/report_spec.rb:152 | declaring a query, through-queries included, keeps names unique and parents declared before children |
| `Declarations.DeclareMetricKeepsWellFormed` | spec/report_spec.rb:19 | declaring a metric keeps the declarations well formed |
| `Declarations.DeclareOptionKeepsWellFormed` | spec/report_spec.rb:227 | declaring an option keeps the declarations well formed |
| `Selection.Select` | spec/report_spec.rb:123-175 | giving both `only` and `except` is an error, and so is naming any undeclared query (the error lists exactly those names); otherwise `only: S` selects exactly S, `except: S` selects every declared query outside S, and no option selects all declared queries |
| `Selection.OnlyWithExceptFails` | spec/report_spec.rb:123-125 | `only` together with `except` fails whatever the names |
| `Selection.UnknownOnlyNameFails` | spec/report_spec.rb:127-129 | an undeclared name under `only` fails, and the error names it |
| `Execution.RunRootsSpec` | spec/report_spec.rb:137-149 | the first pass runs exactly the selected root queries, each on the params |
| `Execution.RunThroughGrows` | spec/report_spec.rb:177-182 | the second pass keeps every root result and adds only selected through-queries |
| `Execution.RunThroughAt` | spec/report_spec.rb:151-161 | a through-query has records exactly when it is selected and its parent ran, and they are its fetcher applied to the parent's records |
| `Execution.RunThroughSpec` | spec/report_spec.rb:92-99 | the same, for every through-query at once |
| `Execution.RunQueriesSpec` | spec/report_spec.rb:88-182 | reference characterisation of a run: roots run iff selected, on the params; through-queries run iff selected and their parent ran, on the parent's records; nothing outside the selection runs |
| `Execution.ComputeMetricsFrame` | spec/report_spec.rb:47-49 | the metrics pass adds and drops no metric and touches no other entry |
| `Execution.ComputeMetricsAt` | spec/report_spec.rb:63-77 | an unbound metric always gets its value; a bound metric gets its computation on its query's records when that query ran, and otherwise keeps its earlier result |
| `Execution.ComputeMetricsSpec` | spec/report_spec.rb:47-49 | the same, for every metric at once |
| `Execution.ClosedSelectionRuns` | spec/report_spec.rb:157-161 | when the selection names each selected through-query's parent, every selected query runs, whole chains included |
| `Execution.RunsExactlyClosedSelection` | spec/report_spec.rb:143-149 | for such a selection, the queries that run are exactly the selection |
| `Execution.RunWithoutSelectionRunsAll` | spec/report_spec.rb:131-135 | with neither `only` nor `except`, every declared query runs |
| `Execution.RunWithoutQueriesIsEmpty` | spec/report_spec.rb:9-13 | a report with no queries has empty results after a run |
| `Execution.RunOnly` | spec/report_spec.rb:137-149 | `only: S` never runs a query outside S, and runs all of S when S names the parents of its through-queries |
| `Execution.RunOnlyWithoutParent` | spec/report_spec.rb:151-155 | a through-query whose parent is not selected does not run, even when the through-query itself is named; the test covers only the case where the through-query is not named, so this case follows from the modelling rule alone |
| `Execution.RunExcept` | spec/report_spec.rb:163-182 | `except: S` runs no query in S and every root query outside S, and runs every query outside S when none of them reads from a query in S |
| `Execution.ThroughNeedsParent` | spec/report_spec.rb:151-155 | a through-query never runs in a call in which its parent did not, which is how excluding a parent excludes its children |
| `Options.ResolveParams` | spec/report_spec.rb:91-97 | the params hold exactly one entry per declared option |
| `Options.ResolveParamsValues` | spec/report_spec.rb:105-108 | each option holds the value passed for it, or its default when none was passed (a report made without `first` reads `first` as false) |
| `Options.ValidIffRequiredPresent` | spec/report_spec.rb:224-240 | params are valid exactly when every required option has a non-blank value |
| `Options.FailuresAreIndependent` | spec/report_spec.rb:227 | the validation outcome of one option does not depend on any other option's value |
| `Naming.LowerAll` | spec/report_spec.rb:31-34 | lowercasing keeps the length and lowercases each character |
| `Naming.ReportName` | spec/report_spec.rb:31-34 | the report name is the class name without a trailing `Report`, with every letter in lower case |
| `Naming.ReportNameOfReportClass` | spec/report_spec.rb:31-34 | a class named as a capitalised word plus `Report` is named by that word |
| `Naming.TestReportName` | spec/report_spec.rb:32-33 | `TestReport` is named `test` |
| `Naming.IsNamed` | spec/report_spec.rb:199-207 | a `one?`-style predicate holds only for a token without capital letters, as long as the class name without `Report` |
| `Naming.BaseReportIsNeitherOneNorTwo` | spec/report_spec.rb:203-204 | the base report class is neither `one?` nor `two?` |
| `Naming.OneAndTwoReports` | spec/report_spec.rb:186-208 | `OneReport` is `one?` and not `two?`; `TwoReport` is `two?` and not `one?` |
| `Reports.Report.constructor` | spec/report_spec.rb:15-28 | a new instance holds the type's declarations and its resolved params; no query has run and no metric has a result |
| `Reports.Report.HasRun` | spec/report_spec.rb:131-181 | on a consistent report, only declared queries have run, and every query that ran in the last call has run |
| `Reports.Report.IsValid` | spec/report_spec.rb:224-240 | `valid?` holds exactly when every required option of the instance has a present value |
| `Reports.Report.QueryMetrics` | spec/report_spec.rb:63-68 | a query's metrics are exactly the metrics bound to it (every one of them, and no other), with the very results the report holds for them |
| `Reports.Report.Run` | spec/report_spec.rb:36-183 | a bad selection returns its error and changes nothing; otherwise the call's results are `RunQueries` of the selection; a query has run afterwards exactly when it had run before or ran in this call; each query that ran holds its new records and every other query keeps its earlier results; every unbound metric holds its value; the metrics are `ComputeMetrics` of the call's results; and the instance stays consistent, so each bound metric holds its computation on its query's results when that query has run and nil when it has not; the declarations are untouched |
| `Reports.Report.RunRootQueries` | spec/report_spec.rb:131-149 | the root-query loop computes exactly `RunRoots` and records each query that runs |
| `Reports.Report.RunThroughQueries` | spec/report_spec.rb:151-161 | the through-query loop computes exactly `RunThrough` from the roots' results |
| `Reports.Report.RunMetrics` | spec/report_spec.rb:63-77 | the metrics loop computes exactly `ComputeMetrics` and changes no query state |
| `Reports.RunOneOfTwo` | spec/report_spec.rb:79-86 | running one instance leaves another of the same type with no query run, no metric result and no results, and leaves the type's declarations as they were |
| `Reports.RunEachOfTwo` | spec/report_spec.rb:105-109 | two instances run in turn each end with the results of their own params |
| `Scenarios.OnlyExample` | spec/report_spec.rb:137-161 | through `Select`, `only: [:first, :third]` runs those two; `only: :first` does not run `through`; `only: [:first, :through]` runs both |
| `Scenarios.ExceptExample` | spec/report_spec.rb:163-182 | through `Select`, `except: [:first, :third]` runs only `second` (`through` is selected but its parent does not run); `except: :through` runs `first` but not `through` |
| `Scenarios.ThroughExample` | spec/report_spec.rb:88-109 | the through-query yields `[100]` for `first: true` and `[1600]` when the option defaults to false |
| `Scenarios.MetricsExample` | spec/report_spec.rb:36-77 | the `test` query returns both dates, the bound metric holds the later date, and the unbound metric holds 3 |
| `Scenarios.ValidityExample` | spec/report_spec.rb:224-240 | `id: 5` is valid and `id: nil` is not when `id` must be present |

## Left out

- Coercion of option strings to dates and booleans, option kinds and dropdown choices: values arrive already typed (`Value`), and a dropdown's choices are not validated.
- Fetching data (`fetch_results`): fetchers are abstract functions of the params or of the parent's records.
- The `context` argument of `run`: it reaches only the fetchers, which are abstract here.
- Errors raised by a fetcher or a metric computation: the callables are total functions here.
- The `params_class` ancestry and inherited validators (`validates`, `validators_on`): validity is modelled only as presence checks on the declared options.
- Report-type inheritance: a report type's declarations are one `Descriptor`.
- Dynamic accessors (`report.first`, `report.test_results`), `respond_to?` for the predicate methods, and defining or removing constants: only the name derivation behind them is modelled.
- Naming.ReportName: folds only the ASCII capitals A-Z to small letters, and does not model ActiveSupport's `underscore`. A multi-word class name such as `DailySalesReport` becomes `dailysales` here rather than `daily_sales`, and a namespace prefix is lowercased, not turned into a path.
- Options.Blank: covers nil, false and strings made only of ASCII whitespace. It does not cover other Unicode whitespace, which a presence validation also treats as blank, and it does not cover empty collections, because `Value` has none.
- Reports.Report.Run: a query or a bound metric that does not run in a call keeps what it held before; it is not reset to nil. So a bound metric whose query did not run in the current call has no result only on the first call. Across calls the model promises the weaker instance-level rule: the metric agrees with its query's current results, and is nil while its query has never run.
- Declarations.DeclareQuery: resolves `through:` at declaration time. A through-query whose parent is declared only later is refused, and so is a redeclaration whose parent sits after the redeclared query's place. Lazy resolution at run time, with a configuration error when the parent is still missing, is not modelled.
- Reports.Report.RunMetrics: computes every bound metric after all queries have run, not right after its own query. With pure callables the results are the same.
- Object identity of the per-query and per-metric objects: they are map entries of the owning `Report`, so "not the same collection" becomes "entries of distinct `Report` objects".
