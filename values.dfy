/** Values bound into a statement, as they arrive from the JSON parameter text or
    from the template engine, and the text `String.valueOf` gives for them. */
module Values {

  datatype Option<+T> = None | Some(value: T)

  /** A parameter value. `Coll` is a `java.util.Collection` (a JSON array),
      `Bag` a `java.util.Map` (a JSON object) with its entries in iteration order. */
  datatype Value =
    | Null
    | Num(n: int)
    | Str(s: string)
    | Bool(b: bool)
    | Coll(items: seq<Value>)
    | Bag(entries: seq<(string, Value)>)

  predicate IsDigit(c: char) { '0' <= c <= '9' }

  function DigitChar(d: nat): (c: char)
    requires d < 10
    ensures IsDigit(c) && c as int - '0' as int == d
  {
    ('0' as int + d) as char
  }

  /** The number a run of decimal digits spells, read left to right:
      each digit multiplies what was read so far by ten and adds itself. */
  function DigitsValue(s: string): int
  {
    if s == [] then 0 else 10 * DigitsValue(s[..|s| - 1]) + (s[|s| - 1] as int - '0' as int)
  }

  /** The number an optionally signed decimal text spells. */
  function SignedValue(s: string): int
  {
    if s != [] && s[0] == '-' then -DigitsValue(s[1..]) else DigitsValue(s)
  }

  /** Decimal text of a natural number, most significant digit first: digits
      only, no leading zero, and spelling `n`. */
  function NatText(n: nat): (r: string)
    ensures |r| >= 1
    ensures forall i :: 0 <= i < |r| ==> IsDigit(r[i])
    ensures r[0] == '0' <==> n == 0
    ensures DigitsValue(r) == n
  {
    if n < 10 then [DigitChar(n)]
    else
      var r := NatText(n / 10) + [DigitChar(n % 10)];
      assert r[..|r| - 1] == NatText(n / 10);
      r
  }

  /** `Integer.toString` / `Long.toString`: a minus sign exactly for a negative
      number, then the digits of its magnitude, spelling `n`. */
  function IntText(n: int): (r: string)
    ensures |r| >= 1
    ensures forall i :: 0 <= i < |r| ==> IsDigit(r[i]) || (i == 0 && r[i] == '-')
    ensures (r[0] == '-') <==> n < 0
    ensures SignedValue(r) == n
  {
    if n < 0 then
      var r := "-" + NatText(-n);
      assert r[1..] == NatText(-n);
      r
    else NatText(n)
  }

  function Join(parts: seq<string>, sep: string): string
  {
    if parts == [] then ""
    else if |parts| == 1 then parts[0]
    else parts[0] + sep + Join(parts[1..], sep)
  }

  /** The entries fastjson writes for a map: those whose value is not null. */
  function NonNullEntries(es: seq<(string, Value)>): (r: seq<(string, Value)>)
    ensures |r| <= |es|
    ensures forall j :: 0 <= j < |r| ==> r[j] in es && r[j].1 != Null
    ensures forall j :: 0 <= j < |es| && es[j].1 != Null ==> es[j] in r
  {
    if es == [] then []
    else (if es[0].1 == Null then [] else [es[0]]) + NonNullEntries(es[1..])
  }

  /** The text `String.valueOf` gives for a value: scalars as Java prints them,
      collections and maps as the JSON text of fastjson's `JSONArray` and
      `JSONObject`, which leaves out map entries whose value is null. */
  function Text(v: Value): (r: string)
    ensures v.Num? ==> SignedValue(r) == v.n
    ensures v.Str? ==> r == v.s
    ensures v.Coll? ==> |r| >= 2 && r[0] == '[' && r[|r| - 1] == ']'
    ensures v.Bag? ==> |r| >= 2 && r[0] == '{' && r[|r| - 1] == '}'
    decreases v
  {
    match v
    case Null => "null"
    case Num(n) => IntText(n)
    case Str(s) => s
    case Bool(b) => if b then "true" else "false"
    case Coll(items) =>
      "[" + Join(seq(|items|, i requires 0 <= i < |items| =>
                   if items[i].Str? then "\"" + items[i].s + "\"" else Text(items[i])), ",") + "]"
    case Bag(entries) =>
      var kept := NonNullEntries(entries);
      "{" + Join(seq(|kept|, i requires 0 <= i < |kept| =>
                   "\"" + kept[i].0 + "\":" +
                   (if kept[i].1.Str? then "\"" + kept[i].1.s + "\"" else Text(kept[i].1))), ",") + "}"
  }

  /** A map whose only entries hold null prints as an empty JSON object. */
  lemma NullEntriesOmitted(k: string)
    ensures Text(Bag([(k, Null)])) == "{}"
  {
    assert NonNullEntries([(k, Null)]) == [];
  }
}
