/** `PATTERN.matcher(message).find()` and `group(1)` for the pattern
    `The expression '(.*)' evaluated to a null value`: the leftmost start where
    the pattern matches, and there the longest group, since `.*` is greedy and
    does not cross a line terminator. */
module NullValuePattern {
  import opened Values

  const Prefix: string := "The expression '"
  const Suffix: string := "' evaluated to a null value"

  /** The characters `.` does not match in a Java pattern compiled without flags. */
  predicate IsLineTerminator(c: char)
  {
    c == '\n' || c == '\r' || c == '\U{85}' || c == '\U{2028}' || c == '\U{2029}'
  }

  predicate OccursAt(msg: string, i: int, w: string)
  {
    0 <= i && i + |w| <= |msg| && msg[i..i + |w|] == w
  }

  predicate SuffixAt(msg: string, i: int)
  {
    OccursAt(msg, i, Suffix)
  }

  /** The whole pattern matches `msg` from position `p` with a group of `g` characters. */
  predicate MatchAt(msg: string, p: nat, g: nat)
  {
    && OccursAt(msg, p, Prefix)
    && p + |Prefix| + g <= |msg|
    && (forall k :: p + |Prefix| <= k < p + |Prefix| + g ==> !IsLineTerminator(msg[k]))
    && SuffixAt(msg, p + |Prefix| + g)
  }

  /** Length of the stretch without line terminators that starts at `q`. */
  function Run(msg: string, q: nat): (n: nat)
    requires q <= |msg|
    ensures q + n <= |msg|
    ensures forall k :: q <= k < q + n ==> !IsLineTerminator(msg[k])
    ensures q + n == |msg| || IsLineTerminator(msg[q + n])
    decreases |msg| - q
  {
    if q == |msg| || IsLineTerminator(msg[q]) then 0 else 1 + Run(msg, q + 1)
  }

  /** Backtracking of the greedy group: the largest length up to `g` after which
      the suffix follows. */
  function Longest(msg: string, q: nat, g: nat): (r: Option<nat>)
    ensures r.Some? ==> r.value <= g && SuffixAt(msg, q + r.value)
    ensures forall i :: (if r.Some? then q + r.value < i else q <= i) && i <= q + g ==> !SuffixAt(msg, i)
    decreases g
  {
    if SuffixAt(msg, q + g) then Some(g)
    else if g == 0 then None
    else Longest(msg, q, g - 1)
  }

  /** `find` from position `p` onwards: the start of the match and the length of its group. */
  function FindFrom(msg: string, p: nat): (r: Option<(nat, nat)>)
    ensures r.Some? ==> p <= r.value.0 && MatchAt(msg, r.value.0, r.value.1)
    ensures r.Some? ==> forall g :: r.value.1 < g ==> !MatchAt(msg, r.value.0, g)
    ensures forall p', g :: p <= p' && (r.None? || p' < r.value.0) ==> !MatchAt(msg, p', g)
    decreases |msg| - p
  {
    if p + |Prefix| > |msg| then None
    else if OccursAt(msg, p, Prefix) then
      var q := p + |Prefix|;
      match Longest(msg, q, Run(msg, q))
      case Some(g) => Some((p, g))
      case None => FindFrom(msg, p + 1)
    else FindFrom(msg, p + 1)
  }

  /** `group(1)` after a successful `find`, or `None` when `find` fails. */
  function Capture(msg: string): (r: Option<string>)
    ensures r.None? <==> forall p: nat, g: nat :: !MatchAt(msg, p, g)
  {
    match FindFrom(msg, 0)
    case Some((p, g)) => Some(msg[p + |Prefix|..p + |Prefix| + g])
    case None => None
  }

  /** The message MyBatis writes for a `foreach` collection that evaluated to
      null gives back the expression it names, whatever follows the pattern
      as long as no further quote does. */
  lemma CaptureRoundTrip(key: string, tail: string)
    requires forall k :: 0 <= k < |key| ==> !IsLineTerminator(key[k])
    requires '\'' !in tail
    ensures Capture(Prefix + key + Suffix + tail) == Some(key)
  {
    var msg := Prefix + key + Suffix + tail;
    MatchAtStart(key, tail);
    forall i | |Prefix| + |key| < i ensures !SuffixAt(msg, i) {
      NoLaterSuffix(key, tail, i);
    }
    CaptureAtStart(msg, |key|);
    KeySlice(key, tail);
  }

  lemma KeySlice(key: string, tail: string)
    ensures (Prefix + key + Suffix + tail)[|Prefix|..|Prefix| + |key|] == key
  {
  }

  /** A match from the very start, with no closing text further on, is what
      `find` reports. */
  lemma CaptureAtStart(msg: string, g: nat)
    requires MatchAt(msg, 0, g)
    requires forall i :: |Prefix| + g < i ==> !SuffixAt(msg, i)
    ensures Capture(msg) == Some(msg[|Prefix|..|Prefix| + g])
  {
    var r := FindFrom(msg, 0);
    assert r.Some? && r.value.0 == 0;
  }

  lemma MatchAtStart(key: string, tail: string)
    requires forall k :: 0 <= k < |key| ==> !IsLineTerminator(key[k])
    ensures MatchAt(Prefix + key + Suffix + tail, 0, |key|)
  {
    var msg := Prefix + key + Suffix + tail;
    var q := |Prefix|;
    assert msg[..q] == Prefix;
    assert msg[q..q + |key|] == key;
    assert forall k :: q <= k < q + |key| ==> msg[k] == key[k - q];
    assert msg[q + |key|..q + |key| + |Suffix|] == Suffix;
  }

  /** The only quote in the closing text is its first character. */
  lemma SuffixQuote()
    ensures Suffix[0] == '\''
    ensures forall k :: 0 < k < |Suffix| ==> Suffix[k] != '\''
  {
  }

  lemma NoLaterSuffix(key: string, tail: string, i: int)
    requires '\'' !in tail
    requires |Prefix| + |key| < i
    ensures !SuffixAt(Prefix + key + Suffix + tail, i)
  {
    var msg := Prefix + key + Suffix + tail;
    var e := |Prefix| + |key|;
    if SuffixAt(msg, i) {
      assert msg[i] == '\'' by { assert msg[i..i + |Suffix|][0] == Suffix[0]; }
      if i < e + |Suffix| {
        assert msg[i] == Suffix[i - e];
        SuffixQuote();
      }
      assert false;
    }
  }

  /** Text in which the pattern does not occur captures nothing, so the map is
      left as it is before the second attempt. */
  lemma NoPrefixNoCapture(msg: string)
    requires forall p :: 0 <= p ==> !OccursAt(msg, p, Prefix)
    ensures Capture(msg) == None
  {
  }

  /** The group is greedy: with the pattern's closing text twice on one line,
      the group runs to the second one. */
  lemma CaptureIsGreedy(a: string, b: string)
    requires forall k :: 0 <= k < |a| ==> !IsLineTerminator(a[k])
    requires forall k :: 0 <= k < |b| ==> !IsLineTerminator(b[k])
    requires '\'' !in b
    ensures Capture(Prefix + a + Suffix + b + Suffix) == Some(a + Suffix + b)
  {
    var key := a + Suffix + b;
    SingleLine(a, b);
    CaptureRoundTrip(key, []);
    Regroup(a, b);
  }

  lemma Regroup(a: string, b: string)
    ensures Prefix + a + Suffix + b + Suffix == Prefix + (a + Suffix + b) + Suffix + []
  {
  }

  lemma SingleLine(a: string, b: string)
    requires forall k :: 0 <= k < |a| ==> !IsLineTerminator(a[k])
    requires forall k :: 0 <= k < |b| ==> !IsLineTerminator(b[k])
    ensures forall k :: 0 <= k < |a + Suffix + b| ==> !IsLineTerminator((a + Suffix + b)[k])
  {
    var key := a + Suffix + b;
    forall k | 0 <= k < |key| ensures !IsLineTerminator(key[k]) {
      if k < |a| { assert key[k] == a[k]; }
      else if k < |a| + |Suffix| { assert key[k] == Suffix[k - |a|]; }
      else { assert key[k] == b[k - |a| - |Suffix|]; }
    }
  }
}
