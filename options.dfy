/**
 * Report options: resolving the values a report is constructed with
 * against the declared options (defaults fill what was not given), and
 * the presence validation behind `valid?`.
 */
module Options {
  import opened Wrappers
  import opened Declarations

  /** The option values given to a report's constructor; a value may be nil. */
  type RawParams = map<Name, Option<Value>>

  /** The value of option `n`, nil when there is none. */
  function Lookup(p: Params, n: Name): Option<Value> {
    if n in p then p[n] else None
  }

  /** The value option `o` takes: the given one when its name was passed, else its default. */
  function Given(o: OptionDef, raw: RawParams): Option<Value> {
    if o.name in raw then raw[o.name] else o.default
  }

  /** No later declaration reuses the name of the option at `i`. */
  predicate LastDeclared(os: seq<OptionDef>, i: nat)
    requires i < |os|
  {
    forall j :: i < j < |os| ==> os[j].name != os[i].name
  }

  lemma OptionNamesSplit(os: seq<OptionDef>)
    requires os != []
    ensures OptionNames(os) == OptionNames(os[..|os| - 1]) + {os[|os| - 1].name}
  {
    var init := os[..|os| - 1];
    forall n | n in OptionNames(init) ensures n in OptionNames(os) {
      var i :| 0 <= i < |init| && init[i].name == n;
      assert os[i] == init[i];
    }
    assert os[|os| - 1].name in OptionNames(os);
  }

  /** The params of a report: one entry per declared option and none other. */
  function ResolveParams(os: seq<OptionDef>, raw: RawParams): (p: Params)
    ensures p.Keys == OptionNames(os)
    decreases |os|
  {
    if os == [] then map[]
    else
      var o := os[|os| - 1];
      OptionNamesSplit(os);
      ResolveParams(os[..|os| - 1], raw)[o.name := Given(o, raw)]
  }

  /**
   * Each option of the params holds the value given for it or, when none
   * was given, its default; where a name is declared twice, the later
   * declaration decides.
   */
  lemma {:induction false} ResolveParamsValues(os: seq<OptionDef>, raw: RawParams, i: nat)
    requires i < |os| && LastDeclared(os, i)
    ensures os[i].name in ResolveParams(os, raw)
    ensures ResolveParams(os, raw)[os[i].name] == Given(os[i], raw)
    decreases |os|
  {
    var last := |os| - 1;
    var init := os[..last];
    if i < last {
      assert os[last].name != os[i].name;
      assert LastDeclared(init, i) && init[i] == os[i];
      ResolveParamsValues(init, raw, i);
    }
  }

  predicate IsSpace(c: char) {
    c == ' ' || c == '\t' || c == '\n' || c == '\r' || c == '\U{C}' || c == '\U{B}'
  }

  /** A value a presence validation rejects: nil, false, or a string of blanks only. */
  predicate Blank(v: Option<Value>) {
    match v
    case None => true
    case Some(Bool(b)) => !b
    case Some(Str(s)) => forall k :: 0 <= k < |s| ==> IsSpace(s[k])
    case Some(Int(_)) => false
  }

  /** The names of the required options whose value is blank. */
  function Failures(os: seq<OptionDef>, p: Params): set<Name> {
    set i | 0 <= i < |os| && os[i].required && Blank(Lookup(p, os[i].name)) :: os[i].name
  }

  predicate IsValid(os: seq<OptionDef>, p: Params) {
    Failures(os, p) == {}
  }

  /** Params are valid exactly when every required option has a present value. */
  lemma ValidIffRequiredPresent(os: seq<OptionDef>, p: Params)
    ensures IsValid(os, p) <==>
      forall i :: 0 <= i < |os| && os[i].required ==> !Blank(Lookup(p, os[i].name))
  {
    if IsValid(os, p) {
      forall i | 0 <= i < |os| && os[i].required ensures !Blank(Lookup(p, os[i].name)) {
        assert os[i].name !in Failures(os, p);
      }
    } else {
      var n :| n in Failures(os, p);
    }
  }

  /** Validating one option never depends on the value of another. */
  lemma FailuresAreIndependent(os: seq<OptionDef>, p: Params, n: Name, v: Option<Value>)
    ensures Failures(os, p[n := v]) - {n} == Failures(os, p) - {n}
  {
    var q := p[n := v];
    forall m | m != n ensures m in Failures(os, q) <==> m in Failures(os, p) {
      if m in Failures(os, q) {
        var i :| 0 <= i < |os| && os[i].required && Blank(Lookup(q, os[i].name)) && os[i].name == m;
        assert Lookup(q, m) == Lookup(p, m);
      }
      if m in Failures(os, p) {
        var i :| 0 <= i < |os| && os[i].required && Blank(Lookup(p, os[i].name)) && os[i].name == m;
        assert Lookup(q, m) == Lookup(p, m);
      }
    }
  }
}
