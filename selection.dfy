/**
 * Which queries one `run` call executes: all of them, only the named ones,
 * or all but the named ones. Naming both lists, or a query the report does
 * not declare, is an argument error and nothing runs.
 */
module Selection {
  import opened Wrappers
  import opened Declarations

  /** The `only:` and `except:` options of a run call; None when not given. */
  datatype Request = Request(only: Option<set<Name>>, except: Option<set<Name>>)

  datatype SelectError = OnlyAndExcept | UnknownQueries(names: set<Name>)

  const RunAll := Request(None, None)

  /** Every name the request mentions. */
  function Named(req: Request): set<Name> {
    (if req.only.Some? then req.only.value else {}) + (if req.except.Some? then req.except.value else {})
  }

  function Select(declared: set<Name>, req: Request): (r: Result<set<Name>, SelectError>)
    ensures req.only.Some? && req.except.Some? ==> r == Failure(OnlyAndExcept)
    ensures r.Failure? <==> (req.only.Some? && req.except.Some?) || !(Named(req) <= declared)
    ensures r.Failure? && r.error.UnknownQueries? ==>
      r.error.names != {} && r.error.names == Named(req) - declared
    ensures r.Success? ==> r.value <= declared
    ensures r.Success? && req.only.Some? ==> r.value == req.only.value
    ensures r.Success? && req.except.Some? ==>
      forall n :: n in declared ==> (n in r.value <==> n !in req.except.value)
    ensures r.Success? && req.only.None? && req.except.None? ==> r.value == declared
  {
    if req.only.Some? && req.except.Some? then Failure(OnlyAndExcept)
    else if !(Named(req) <= declared) then Failure(UnknownQueries(Named(req) - declared))
    else if req.only.Some? then Success(req.only.value)
    else if req.except.Some? then Success(declared - req.except.value)
    else Success(declared)
  }

  /** A request naming both lists fails, whatever the names and the declarations. */
  lemma OnlyWithExceptFails(declared: set<Name>, only: set<Name>, except: set<Name>)
    ensures Select(declared, Request(Some(only), Some(except))) == Failure(OnlyAndExcept)
  {
  }

  /** Naming an undeclared query under `only` fails and reports that name. */
  lemma UnknownOnlyNameFails(declared: set<Name>, only: set<Name>, n: Name)
    requires n in only && n !in declared
    ensures var r := Select(declared, Request(Some(only), None));
      r.Failure? && r.error.UnknownQueries? && n in r.error.names
  {
  }
}
