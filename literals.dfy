/** The first half of `formatSql`: turning the bound statement's parameter
    mappings into the ordered list of SQL literals that replace its `?` slots. */
module Literals {
  import opened Values

  /** `org.apache.ibatis.mapping.ParameterMode`. */
  datatype Mode = In | Out | InOut

  /** One `?` slot of a bound statement: the property path it reads, whether its
      declared Java type is a subtype of `Number`, and its mode. */
  datatype ParamMapping = ParamMapping(property: string, numeric: bool, mode: Mode)

  /** What the template engine hands back from binding: the raw SQL with `?`
      slots, the slot declarations in order, the parameter object (`Null` for a
      Java null) and the additional parameters the engine generated itself. */
  datatype BoundSql = BoundSql(
    sql: string,
    mappings: seq<ParamMapping>,
    paramObject: Value,
    additional: map<string, Value>)

  /** The two services of the MyBatis configuration `formatSql` consults: whether
      the type handler registry has a handler for the class of a value, and
      property-path lookup through a `MetaObject` wrapped around a value. */
  datatype Configuration = Configuration(
    hasTypeHandler: Value -> bool,
    propertyValue: (Value, string) -> Value)

  /** The value a slot reading `property` is bound to. The sources are tried
      in a fixed order: an additional parameter of that name, then a null
      parameter object, then a parameter object with a type handler of its
      own, and only then the property looked up in the parameter object. */
  function Resolve(b: BoundSql, cfg: Configuration, property: string): (v: Value)
    ensures property in b.additional ==> v == b.additional[property]
    ensures property !in b.additional && b.paramObject == Null ==> v == Null
    ensures property !in b.additional && b.paramObject != Null && cfg.hasTypeHandler(b.paramObject) ==>
              v == b.paramObject
    ensures property !in b.additional && b.paramObject != Null && !cfg.hasTypeHandler(b.paramObject) ==>
              v == cfg.propertyValue(b.paramObject, property)
  {
    if property in b.additional then b.additional[property]
    else if b.paramObject == Null then Null
    else if cfg.hasTypeHandler(b.paramObject) then b.paramObject
    else cfg.propertyValue(b.paramObject, property)
  }

  /** The literal for a value: unquoted (zero for null) when the slot is numeric,
      otherwise between single quotes with nothing escaped (empty for null). */
  function Quote(v: Value, numeric: bool): (r: string)
    ensures numeric ==> r == (if v == Null then "0" else Text(v))
    ensures !numeric ==> |r| >= 2 && r[0] == '\'' && r[|r| - 1] == '\''
    ensures !numeric ==> Unquote(r) == (if v == Null then "" else Text(v))
  {
    if numeric then (if v == Null then "0" else Text(v))
    else "'" + (if v == Null then "" else Text(v)) + "'"
  }

  /** What lies between the outer quotes of a non-numeric literal. */
  function Unquote(lit: string): string
    requires |lit| >= 2
  {
    lit[1..|lit| - 1]
  }

  function LiteralOf(b: BoundSql, cfg: Configuration, m: ParamMapping): string
  {
    Quote(Resolve(b, cfg, m.property), m.numeric)
  }

  /** The mappings that consume a literal: every one not in OUT mode, in order. */
  function NonOut(ms: seq<ParamMapping>): (r: seq<ParamMapping>)
    ensures |r| <= |ms|
    ensures forall j :: 0 <= j < |r| ==> r[j].mode != Out && r[j] in ms
  {
    if ms == [] then []
    else (if ms[0].mode == Out then [] else [ms[0]]) + NonOut(ms[1..])
  }

  /** The literal list `formatSql` builds: one per non-OUT mapping, in order. */
  function Parameters(b: BoundSql, cfg: Configuration): (lits: seq<string>)
  {
    var ms := NonOut(b.mappings);
    seq(|ms|, j requires 0 <= j < |ms| => LiteralOf(b, cfg, ms[j]))
  }

  /** Builds the literal list by appending in a loop over the mappings, as `formatSql` does. */
  method ResolveParameters(b: BoundSql, cfg: Configuration) returns (lits: seq<string>)
    ensures |lits| == |NonOut(b.mappings)|
    ensures forall j :: 0 <= j < |lits| ==> lits[j] == LiteralOf(b, cfg, NonOut(b.mappings)[j])
  {
    var ms := b.mappings;
    lits := [];
    for i := 0 to |ms|
      invariant |lits| == |NonOut(ms[..i])|
      invariant forall j :: 0 <= j < |lits| ==> lits[j] == LiteralOf(b, cfg, NonOut(ms[..i])[j])
    {
      NonOutSnoc(ms[..i], ms[i]);
      assert ms[..i + 1] == ms[..i] + [ms[i]];
      if ms[i].mode == Out {
        continue;
      }
      lits := lits + [LiteralOf(b, cfg, ms[i])];
    }
    assert ms[..|ms|] == ms;
  }

  // ---- Properties of the filter ----

  lemma {:induction false} NonOutSnoc(ms: seq<ParamMapping>, m: ParamMapping)
    ensures NonOut(ms + [m]) == NonOut(ms) + (if m.mode == Out then [] else [m])
    decreases |ms|
  {
    if ms == [] {
      assert [m][1..] == [];
    } else {
      assert (ms + [m])[1..] == ms[1..] + [m];
      NonOutSnoc(ms[1..], m);
    }
  }

  lemma {:induction false} NonOutAppend(xs: seq<ParamMapping>, ys: seq<ParamMapping>)
    ensures NonOut(xs + ys) == NonOut(xs) + NonOut(ys)
    decreases |xs|
  {
    if xs == [] {
      assert xs + ys == ys;
    } else {
      assert (xs + ys)[1..] == xs[1..] + ys;
      NonOutAppend(xs[1..], ys);
    }
  }

  /** Without OUT mappings every mapping consumes one literal. */
  lemma {:induction false} NonOutWithoutOut(ms: seq<ParamMapping>)
    requires forall j :: 0 <= j < |ms| ==> ms[j].mode != Out
    ensures NonOut(ms) == ms
    decreases |ms|
  {
    if ms != [] {
      NonOutWithoutOut(ms[1..]);
    }
  }

  /** Only OUT mappings: no literal at all. */
  lemma {:induction false} NonOutOnlyOut(ms: seq<ParamMapping>)
    requires forall j :: 0 <= j < |ms| ==> ms[j].mode == Out
    ensures NonOut(ms) == []
    decreases |ms|
  {
    if ms != [] {
      NonOutOnlyOut(ms[1..]);
    }
  }

  /** How many mappings are in OUT mode. */
  function OutCount(ms: seq<ParamMapping>): nat
  {
    if ms == [] then 0 else (if ms[0].mode == Out then 1 else 0) + OutCount(ms[1..])
  }

  /** The literal list has one entry for every mapping except the OUT ones. */
  lemma {:induction false} LiteralCount(b: BoundSql, cfg: Configuration)
    ensures |Parameters(b, cfg)| + OutCount(b.mappings) == |b.mappings|
  {
    NonOutCount(b.mappings);
  }

  lemma {:induction false} NonOutCount(ms: seq<ParamMapping>)
    ensures |NonOut(ms)| + OutCount(ms) == |ms|
    decreases |ms|
  {
    if ms != [] {
      NonOutCount(ms[1..]);
    }
  }

  // ---- Value precedence ----

  /** An additional parameter for the property wins over everything else. */
  lemma AdditionalWins(b: BoundSql, cfg: Configuration, property: string, obj: Value)
    requires property in b.additional
    ensures Resolve(b.(paramObject := obj), cfg, property) == b.additional[property]
  {
  }

  /** With no additional parameter, a null parameter object gives null,
      whatever the configuration. */
  lemma NullObjectGivesNull(b: BoundSql, cfg: Configuration, property: string)
    requires property !in b.additional && b.paramObject == Null
    ensures Resolve(b, cfg, property) == Null
  {
  }

  /** A parameter object with a type handler is used whole: every slot without
      an additional parameter gets the object itself, whatever its property. */
  lemma HandledObjectIgnoresProperty(b: BoundSql, cfg: Configuration, p: string, q: string)
    requires p !in b.additional && q !in b.additional
    requires b.paramObject != Null && cfg.hasTypeHandler(b.paramObject)
    ensures Resolve(b, cfg, p) == Resolve(b, cfg, q) == b.paramObject
  {
  }

  /** Otherwise the property path is looked up in the parameter object. */
  lemma LookupOtherwise(b: BoundSql, cfg: Configuration, property: string)
    requires property !in b.additional
    requires b.paramObject != Null && !cfg.hasTypeHandler(b.paramObject)
    ensures Resolve(b, cfg, property) == cfg.propertyValue(b.paramObject, property)
  {
  }

  // ---- Quoting ----

  /** Embedded single quotes are not escaped: a string value's text appears
      verbatim between the outer quotes. */
  lemma QuoteDoesNotEscape(s: string)
    ensures Quote(Str(s), false) == "'" + s + "'"
  {
  }

  /** The literal cannot tell a null from the value printing the same way:
      a numeric null and zero, a textual null and the empty string. */
  lemma QuoteConflatesNull()
    ensures Quote(Null, true) == Quote(Num(0), true)
    ensures Quote(Null, false) == Quote(Str(""), false)
  {
    assert NatText(0) == "0";
  }
}
