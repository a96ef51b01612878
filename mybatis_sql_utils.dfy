/** `MybatisSqlUtils`: binding a mapped statement against the JSON parameter
    map, with one repair and retry, and turning the bound statement into the
    SQL text shown to the user. */
module MybatisSqlUtils {
  import opened Values
  import opened Literals
  import opened Substitution
  import opened NullValuePattern
  import opened ParamMaps

  /** `MappedStatement.getBoundSql(map)`: the bound statement, or the message of
      the exception it threw. */
  datatype BindOutcome = Bound(bound: BoundSql) | Failed(message: string)

  /** What `getSql` returns, or the message of the exception it lets escape. */
  datatype SqlResult = Sql(text: string) | Error(message: string)

  /** The SQL text `formatSql` produces, before and after pretty-printing. */
  function AssembledSql(cfg: Configuration, b: BoundSql): string
  {
    SubstAll(StripBackticks(b.sql), Parameters(b, cfg))
  }

  /** `formatSql`. `format` is `SqlFormatter.format`. */
  method FormatSql(cfg: Configuration, b: BoundSql, format: string -> string) returns (r: string)
    ensures r == format(AssembledSql(cfg, b))
    ensures b.mappings == [] ==> r == format(StripBackticks(b.sql))
    ensures (forall j :: 0 <= j < |Parameters(b, cfg)| ==> Placeholder !in Parameters(b, cfg)[j]) ==>
              r == format(Fill(StripBackticks(b.sql), Parameters(b, cfg)))
  {
    var sql := StripBackticks(b.sql);
    if |b.mappings| == 0 {
      assert Parameters(b, cfg) == [];
      FillExhausted(sql);
      return format(sql);
    }
    var parameters := ResolveParameters(b, cfg);
    assert parameters == Parameters(b, cfg);
    sql := Substitute(sql, parameters);
    r := format(sql);
  }

  /** The map the second attempt binds: repaired when the first failure's
      message names an expression, unchanged otherwise. Keys stay distinct;
      the named key ends up with the last collection held under another key,
      and no other key changes. */
  function MapForRetry(es: Entries, message: string): (r: Entries)
    requires KeysDistinct(es)
    ensures KeysDistinct(r)
    ensures Capture(message).None? ==> r == es
    ensures Capture(message).Some? ==>
              var key := Capture(message).value;
              && (forall k :: k != key ==> Lookup(r, k) == Lookup(es, k))
              && (LastCollection(es, key).Some? ==> Lookup(r, key) == Some(es[LastCollection(es, key).value].1))
              && (LastCollection(es, key).None? ==> r == es)
  {
    match Capture(message)
    case Some(key) =>
      assert forall k :: k != key ==> Lookup(Repaired(es, key), k) == Lookup(es, k) by {
        forall k | k != key {
          RepairedLookup(es, key, k);
        }
      }
      RepairedLookup(es, key, key);
      Repaired(es, key)
    case None => es
  }

  /** The outcome of `getBoundSql`: the first attempt if it binds, otherwise
      the second attempt on the map prepared for it. */
  function BindWithRepair(bind: Entries -> BindOutcome, es: Entries): BindOutcome
    requires KeysDistinct(es)
  {
    match bind(es)
    case Bound(b) => Bound(b)
    case Failed(m) => bind(MapForRetry(es, m))
  }

  /** `getBoundSql`, from the parsed map on. `bind` is `ms.getBoundSql`; the
      map is local to the call, and the repair changes it in place. `last` is
      the map the last attempt was given. */
  method GetBoundSql(bind: Entries -> BindOutcome, es: Entries) returns (r: BindOutcome, attempts: nat, last: Entries)
    requires KeysDistinct(es)
    ensures r == BindWithRepair(bind, es) && r == bind(last)
    ensures bind(es).Bound? ==> attempts == 1 && last == es
    ensures bind(es).Failed? ==> attempts == 2 && last == MapForRetry(es, bind(es).message)
  {
    var params := new ParamMap(es);
    r := bind(params.entries);
    attempts := 1;
    if r.Failed? {
      var found := Capture(r.message);
      if found.Some? {
        params.Repair(found.value);
      }
      r := bind(params.entries);
      attempts := 2;
    }
    last := params.entries;
  }

  /** `getSql`, from the parsed map on: bind with repair, then format. */
  method GetSql(cfg: Configuration, bind: Entries -> BindOutcome, es: Entries, format: string -> string)
    returns (r: SqlResult)
    requires KeysDistinct(es)
    ensures match BindWithRepair(bind, es)
            case Bound(b) => r == Sql(format(AssembledSql(cfg, b)))
            case Failed(m) => r == Error(m)
  {
    var outcome, _, _ := GetBoundSql(bind, es);
    match outcome
    case Bound(b) =>
      var text := FormatSql(cfg, b, format);
      r := Sql(text);
    case Failed(m) =>
      r := Error(m);
  }

  // ---- Properties of the retry ----

  /** A first success is returned as it is; binding is never attempted again. */
  lemma FirstSuccessIsFinal(bind: Entries -> BindOutcome, es: Entries)
    requires KeysDistinct(es) && bind(es).Bound?
    ensures BindWithRepair(bind, es) == bind(es)
  {
  }

  /** After a first failure, the result is the second attempt, whatever it is:
      a second failure reaches the caller. */
  lemma SecondAttemptIsFinal(bind: Entries -> BindOutcome, es: Entries)
    requires KeysDistinct(es) && bind(es).Failed?
    ensures BindWithRepair(bind, es) == bind(MapForRetry(es, bind(es).message))
  {
  }

  /** A message the pattern does not match still gets a retry, on the map as it was. */
  lemma UnmatchedMessageRetriesUnchanged(es: Entries, message: string)
    requires KeysDistinct(es)
    requires forall p: nat, g: nat :: !MatchAt(message, p, g)
    ensures MapForRetry(es, message) == es
  {
  }

  /** With a matching message the captured key ends up holding the last other
      collection, no other key changes, and without another collection the map
      stays as it was. */
  lemma RetryMapContents(es: Entries, key: string, tail: string, k: string)
    requires KeysDistinct(es)
    requires forall i :: 0 <= i < |key| ==> !IsLineTerminator(key[i])
    requires '\'' !in tail
    ensures var retried := MapForRetry(es, Prefix + key + Suffix + tail);
            && (k != key ==> Lookup(retried, k) == Lookup(es, k))
            && (LastCollection(es, key).Some? ==> Lookup(retried, key) == Some(es[LastCollection(es, key).value].1))
            && (LastCollection(es, key).None? ==> retried == es)
  {
    CaptureRoundTrip(key, tail);
    RepairedLookup(es, key, k);
  }

  /** The repair the retry exists for: a `foreach` over `list` fails because
      the caller passed the collection as `ids`; the retry binds a map in which
      `list` holds that collection too. */
  lemma ForeachCollectionRelocated(items: seq<Value>)
    ensures MapForRetry([("ids", Coll(items))], Prefix + "list" + Suffix + ".")
         == [("ids", Coll(items)), ("list", Coll(items))]
  {
    var es := [("ids", Coll(items))];
    CaptureRoundTrip("list", ".");
    assert es[..|es|] == es;
    assert LastCollection(es, "list") == Some(0);
    assert Repaired(es, "list") == PutEntry(es, "list", Coll(items));
  }

  // ---- Properties of the formatted text ----

  /** A numeric slot reading a property the parameter object holds as a
      number renders it unquoted: `id = ?` with `{"id": 5}` reads `id = 5`. */
  lemma NumericSlotScenario(pre: string, n: int, cfg: Configuration)
    requires Placeholder !in pre && Backtick !in pre
    requires !cfg.hasTypeHandler(Bag([("id", Num(n))]))
    requires cfg.propertyValue(Bag([("id", Num(n))]), "id") == Num(n)
    ensures var b := BoundSql(pre + "?", [ParamMapping("id", true, In)], Bag([("id", Num(n))]), map[]);
            AssembledSql(cfg, b) == pre + IntText(n)
  {
    var b := BoundSql(pre + "?", [ParamMapping("id", true, In)], Bag([("id", Num(n))]), map[]);
    StripWithoutBackticks(pre + "?");
    NonOutWithoutOut(b.mappings);
    assert Resolve(b, cfg, "id") == Num(n);
    assert LiteralOf(b, cfg, b.mappings[0]) == IntText(n);
    assert Parameters(b, cfg) == [IntText(n)];
    SingleSlot(pre, IntText(n));
  }

  /** A text slot reading a property the parameter object holds as null
      renders as two quotes: `name = ?` with `{"name": null}` reads `name = ''`. */
  lemma NullTextSlotScenario(pre: string, cfg: Configuration)
    requires Placeholder !in pre && Backtick !in pre
    requires !cfg.hasTypeHandler(Bag([("name", Null)]))
    requires cfg.propertyValue(Bag([("name", Null)]), "name") == Null
    ensures var b := BoundSql(pre + "?", [ParamMapping("name", false, In)], Bag([("name", Null)]), map[]);
            AssembledSql(cfg, b) == pre + "''"
  {
    var b := BoundSql(pre + "?", [ParamMapping("name", false, In)], Bag([("name", Null)]), map[]);
    StripWithoutBackticks(pre + "?");
    NonOutWithoutOut(b.mappings);
    assert Resolve(b, cfg, "name") == Null;
    assert LiteralOf(b, cfg, b.mappings[0]) == "''";
    assert Parameters(b, cfg) == ["''"];
    SingleSlot(pre, "''");
  }

  lemma SingleSlot(pre: string, lit: string)
    requires Placeholder !in pre && Backtick !in pre
    ensures SubstAll(StripBackticks(pre + "?"), [lit]) == pre + lit
  {
    StripWithoutBackticks(pre + "?");
    assert pre + "?" == pre + [Placeholder] + "";
    SubstFirstSplit(pre, "", lit);
    assert [lit][1..] == [];
  }
}
