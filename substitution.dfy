/** The second half of `formatSql`: removing backticks from the raw SQL and
    replacing its `?` slots with the literals, one `replaceFirst` per literal. */
module Substitution {
  import opened Values

  const Placeholder: char := '?'
  const Backtick: char := '`'

  /** Number of occurrences of `c` in `s`. */
  function Count(s: string, c: char): nat
  {
    if s == [] then 0 else (if s[0] == c then 1 else 0) + Count(s[1..], c)
  }

  lemma {:induction false} CountAppend(a: string, b: string, c: char)
    ensures Count(a + b, c) == Count(a, c) + Count(b, c)
    decreases |a|
  {
    if a == [] {
      assert a + b == b;
    } else {
      assert (a + b)[1..] == a[1..] + b;
      CountAppend(a[1..], b, c);
    }
  }

  lemma {:induction false} CountZero(s: string, c: char)
    ensures Count(s, c) == 0 <==> c !in s
    decreases |s|
  {
    if s != [] {
      CountZero(s[1..], c);
      assert s == [s[0]] + s[1..];
    }
  }

  // ---- Backticks ----

  /** `String.replace("`", "")`: the text with every backtick removed and
      every other character kept, in order. */
  function StripBackticks(s: string): (r: string)
    ensures Backtick !in r
    ensures |r| + Count(s, Backtick) == |s|
    ensures forall c :: c != Backtick ==> Count(r, c) == Count(s, c)
  {
    if s == [] then []
    else if s[0] == Backtick then StripBackticks(s[1..])
    else [s[0]] + StripBackticks(s[1..])
  }

  /** Text without backticks passes through unchanged. */
  lemma {:induction false} StripWithoutBackticks(s: string)
    requires Backtick !in s
    ensures StripBackticks(s) == s
    decreases |s|
  {
    if s != [] {
      StripWithoutBackticks(s[1..]);
    }
  }

  lemma StripIdempotent(s: string)
    ensures StripBackticks(StripBackticks(s)) == StripBackticks(s)
  {
    StripWithoutBackticks(StripBackticks(s));
  }

  lemma {:induction false} StripAppend(a: string, b: string)
    ensures StripBackticks(a + b) == StripBackticks(a) + StripBackticks(b)
    decreases |a|
  {
    if a != [] {
      assert (a + b)[1..] == a[1..] + b;
      StripAppend(a[1..], b);
    } else {
      assert a + b == b;
    }
  }

  // ---- One replacement ----

  /** Position of the first `c` in `s`. */
  function FirstIndex(s: string, c: char): (i: nat)
    requires c in s
    ensures i < |s| && s[i] == c && c !in s[..i]
  {
    if s[0] == c then 0
    else
      assert c in s[1..] by { assert s == [s[0]] + s[1..]; }
      var k := FirstIndex(s[1..], c);
      assert s[..k + 1] == [s[0]] + s[1..][..k];
      k + 1
  }

  /** `sql.replaceFirst("\\?", lit)` for a literal the regex engine copies
      verbatim: the first `?` becomes `lit`; text without `?` is unchanged. */
  function SubstFirst(s: string, lit: string): (r: string)
    ensures Placeholder !in s ==> r == s
    ensures Placeholder in s ==> |r| == |s| - 1 + |lit|
    ensures Placeholder in s ==> Count(r, Placeholder) == Count(s, Placeholder) - 1 + Count(lit, Placeholder)
  {
    if Placeholder !in s then s
    else
      var i := FirstIndex(s, Placeholder);
      assert s == s[..i] + [s[i]] + s[i + 1..];
      CountAppend(s[..i] + [s[i]], s[i + 1..], Placeholder);
      CountAppend(s[..i], [s[i]], Placeholder);
      CountAppend(s[..i] + lit, s[i + 1..], Placeholder);
      CountAppend(s[..i], lit, Placeholder);
      s[..i] + lit + s[i + 1..]
  }

  /** Splitting the text at its first `?`: the part before stays, the `?`
      becomes the literal, the part after stays. */
  lemma SubstFirstSplit(pre: string, post: string, lit: string)
    requires Placeholder !in pre
    ensures SubstFirst(pre + [Placeholder] + post, lit) == pre + lit + post
  {
    var s := pre + [Placeholder] + post;
    FirstIndexAfter(pre, post, Placeholder);
    assert s[..|pre|] == pre;
    assert s[|pre| + 1..] == post;
  }

  lemma {:induction false} FirstIndexAfter(pre: string, post: string, c: char)
    requires c !in pre
    ensures FirstIndex(pre + [c] + post, c) == |pre|
    decreases |pre|
  {
    if pre != [] {
      assert (pre + [c] + post)[1..] == pre[1..] + [c] + post;
      FirstIndexAfter(pre[1..], post, c);
    }
  }

  /** Text without `?` in front of the slot is carried along unchanged. */
  lemma SubstFirstPrefix(p: string, u: string, lit: string)
    requires Placeholder !in p
    ensures SubstFirst(p + u, lit) == p + SubstFirst(u, lit)
  {
    if Placeholder in u {
      var i := FirstIndex(u, Placeholder);
      var pre, post := u[..i], u[i + 1..];
      assert u == pre + [Placeholder] + post;
      SubstFirstSplit(pre, post, lit);
      assert p + u == (p + pre) + [Placeholder] + post;
      SubstFirstSplit(p + pre, post, lit);
    } else {
      assert Placeholder !in p + u;
    }
  }

  // ---- The substitution loop ----

  /** The text after `sql = sql.replaceFirst("\\?", lit)` for each literal in turn. */
  function SubstAll(s: string, lits: seq<string>): string
    decreases |lits|
  {
    if lits == [] then s else SubstAll(SubstFirst(s, lits[0]), lits[1..])
  }

  /** The loop of `formatSql` that reassigns `sql` once per literal. */
  method Substitute(template: string, lits: seq<string>) returns (sql: string)
    ensures sql == SubstAll(template, lits)
    ensures (forall j :: 0 <= j < |lits| ==> Placeholder !in lits[j]) ==> sql == Fill(template, lits)
  {
    sql := template;
    for i := 0 to |lits|
      invariant SubstAll(sql, lits[i..]) == SubstAll(template, lits)
    {
      assert lits[i..][1..] == lits[i + 1..];
      sql := SubstFirst(sql, lits[i]);
    }
    assert lits[|lits|..] == [];
    if forall j :: 0 <= j < |lits| ==> Placeholder !in lits[j] {
      SubstAllIsFill(template, lits);
    }
  }

  /** Reference reading of the substitution: scan the template left to right,
      giving each `?` the next unused literal until the literals run out. */
  function Fill(t: string, lits: seq<string>): string
    decreases |t|
  {
    if t == [] then []
    else if t[0] == Placeholder && lits != [] then lits[0] + Fill(t[1..], lits[1..])
    else [t[0]] + Fill(t[1..], lits)
  }

  lemma {:induction false} FillPrefix(p: string, u: string, lits: seq<string>)
    requires Placeholder !in p
    ensures Fill(p + u, lits) == p + Fill(u, lits)
    decreases |p|
  {
    if p != [] {
      assert (p + u)[1..] == p[1..] + u;
      FillPrefix(p[1..], u, lits);
    } else {
      assert p + u == u;
    }
  }

  lemma {:induction false} SubstAllPrefix(p: string, u: string, lits: seq<string>)
    requires Placeholder !in p
    ensures SubstAll(p + u, lits) == p + SubstAll(u, lits)
    decreases |lits|
  {
    if lits != [] {
      SubstFirstPrefix(p, u, lits[0]);
      SubstAllPrefix(p, SubstFirst(u, lits[0]), lits[1..]);
    }
  }

  /** Text without `?` is left alone by any number of replacements. */
  lemma {:induction false} SubstAllNoPlaceholder(s: string, lits: seq<string>)
    requires Placeholder !in s
    ensures SubstAll(s, lits) == s
    decreases |lits|
  {
    if lits != [] {
      SubstAllNoPlaceholder(s, lits[1..]);
    }
  }

  lemma {:induction false} FillNoPlaceholder(s: string, lits: seq<string>)
    requires Placeholder !in s
    ensures Fill(s, lits) == s
  {
    FillPrefix(s, [], lits);
    assert s + [] == s;
  }

  /** When no literal contains `?`, the replaceFirst loop does exactly what the
      left-to-right reading says: the first `?` gets the first literal, the
      second `?` the second, and so on. */
  lemma {:induction false} SubstAllIsFill(t: string, lits: seq<string>)
    requires forall j :: 0 <= j < |lits| ==> Placeholder !in lits[j]
    ensures SubstAll(t, lits) == Fill(t, lits)
    decreases |lits|
  {
    if lits == [] {
      FillExhausted(t);
    } else if Placeholder !in t {
      SubstAllNoPlaceholder(t, lits);
      FillNoPlaceholder(t, lits);
    } else {
      var i := FirstIndex(t, Placeholder);
      var pre, post := t[..i], t[i + 1..];
      assert t == pre + [Placeholder] + post;
      SubstAllIsFill(post, lits[1..]);
      SubstAllAtSlot(pre, post, lits);
      FillAtSlot(pre, post, lits);
    }
  }

  lemma SubstAllAtSlot(pre: string, post: string, lits: seq<string>)
    requires Placeholder !in pre && lits != [] && Placeholder !in lits[0]
    ensures SubstAll(pre + [Placeholder] + post, lits) == pre + lits[0] + SubstAll(post, lits[1..])
  {
    SubstFirstSplit(pre, post, lits[0]);
    assert Placeholder !in pre + lits[0];
    SubstAllPrefix(pre + lits[0], post, lits[1..]);
  }

  lemma FillAtSlot(pre: string, post: string, lits: seq<string>)
    requires Placeholder !in pre && lits != []
    ensures Fill(pre + [Placeholder] + post, lits) == pre + lits[0] + Fill(post, lits[1..])
  {
    assert pre + [Placeholder] + post == pre + ([Placeholder] + post);
    FillPrefix(pre, [Placeholder] + post, lits);
    assert ([Placeholder] + post)[1..] == post;
  }

  /** With no literals left, every remaining `?` stays in the text. */
  lemma {:induction false} FillExhausted(t: string)
    ensures Fill(t, []) == t
    decreases |t|
  {
    if t != [] {
      FillExhausted(t[1..]);
    }
  }

  /** Once the literals are used up inside `t1`, the rest of the text is untouched:
      with k >= n placeholders, only the first n are replaced. */
  lemma {:induction false} FillLeavesRest(t1: string, t2: string, lits: seq<string>)
    requires |lits| <= Count(t1, Placeholder)
    ensures Fill(t1 + t2, lits) == Fill(t1, lits) + t2
    decreases |t1|
  {
    if t1 == [] {
      assert lits == [];
      FillExhausted(t2);
      assert t1 + t2 == t2;
    } else {
      assert (t1 + t2)[1..] == t1[1..] + t2;
      if t1[0] == Placeholder && lits != [] {
        FillLeavesRest(t1[1..], t2, lits[1..]);
      } else {
        FillLeavesRest(t1[1..], t2, lits);
      }
    }
  }

  /** Placeholders left after substituting literals without `?`: all but the
      first n, or none when there are more literals than placeholders. */
  lemma {:induction false} FillPlaceholderCount(t: string, lits: seq<string>)
    requires forall j :: 0 <= j < |lits| ==> Placeholder !in lits[j]
    ensures Count(Fill(t, lits), Placeholder) ==
            if |lits| <= Count(t, Placeholder) then Count(t, Placeholder) - |lits| else 0
    decreases |t|
  {
    if t != [] {
      FillPlaceholderCount(t[1..], if t[0] == Placeholder && lits != [] then lits[1..] else lits);
      if t[0] == Placeholder && lits != [] {
        CountAppend(lits[0], Fill(t[1..], lits[1..]), Placeholder);
        CountZero(lits[0], Placeholder);
      } else {
        CountAppend([t[0]], Fill(t[1..], lits), Placeholder);
      }
    }
  }

  /** A `?` inside an earlier literal is taken by the next replacement: the
      second literal lands inside the first one and the second slot stays `?`. */
  lemma PlaceholderInLiteralIsReused(pre: string, mid: string, post: string, a: string, b: string, x: string)
    requires Placeholder !in pre && Placeholder !in a
    ensures SubstAll(pre + [Placeholder] + mid + [Placeholder] + post, [a + [Placeholder] + b, x])
         == pre + a + x + b + mid + [Placeholder] + post
  {
    var first := a + [Placeholder] + b;
    var s0 := pre + [Placeholder] + mid + [Placeholder] + post;
    var rest := mid + [Placeholder] + post;
    ReusedShapes(pre, mid, post, a, b, x);
    SubstFirstSplit(pre, rest, first);
    assert Placeholder !in pre + a;
    SubstFirstSplit(pre + a, b + rest, x);
    SubstAllTwo(s0, first, x);
  }

  lemma ReusedShapes(pre: string, mid: string, post: string, a: string, b: string, x: string)
    ensures pre + [Placeholder] + mid + [Placeholder] + post == pre + [Placeholder] + (mid + [Placeholder] + post)
    ensures pre + (a + [Placeholder] + b) + (mid + [Placeholder] + post)
         == (pre + a) + [Placeholder] + (b + (mid + [Placeholder] + post))
    ensures (pre + a) + x + (b + (mid + [Placeholder] + post)) == pre + a + x + b + mid + [Placeholder] + post
  {
  }

  lemma SubstAllTwo(s: string, l0: string, l1: string)
    ensures SubstAll(s, [l0, l1]) == SubstFirst(SubstFirst(s, l0), l1)
  {
    var lits := [l0, l1];
    assert lits[1..] == [l1] && lits[1..][1..] == [];
    calc {
      SubstAll(s, lits);
      SubstAll(SubstFirst(s, l0), lits[1..]);
      SubstAll(SubstFirst(SubstFirst(s, l0), l1), lits[1..][1..]);
    }
  }

  // ---- Java's replacement syntax ----

  /** The replacement text as `Matcher.appendReplacement` expands it for the
      pattern `\?`, whose only group is group 0 (the `?` itself): `\c` gives
      `c`, `$0` (with any further zeros) gives `?`, every other use of `$` or a
      trailing `\` throws, which is `None`. */
  function ExpandReplacement(rep: string): Option<string>
    decreases |rep|
  {
    if rep == [] then Some([])
    else if rep[0] == '\\' then
      if |rep| == 1 then None
      else match ExpandReplacement(rep[2..])
        case None => None
        case Some(e) => Some([rep[1]] + e)
    else if rep[0] == '$' then
      if |rep| == 1 || rep[1] != '0' then None
      else match ExpandReplacement(SkipZeros(rep[2..]))
        case None => None
        case Some(e) => Some([Placeholder] + e)
    else match ExpandReplacement(rep[1..])
      case None => None
      case Some(e) => Some([rep[0]] + e)
  }

  /** Further digits after `$0` are taken into the group number only while it
      stays a valid group, which with one group means only further zeros. */
  function SkipZeros(s: string): (r: string)
    ensures |r| <= |s| && (r == [] || r[0] != '0')
  {
    if s != [] && s[0] == '0' then SkipZeros(s[1..]) else s
  }

  /** `sql.replaceFirst("\\?", lit)` as Java evaluates it: text without `?` comes
      back unchanged without the replacement being read; otherwise the expanded
      replacement takes the first `?`, or the call throws. */
  function ReplaceFirstAsWritten(s: string, lit: string): (r: Option<string>)
    ensures Placeholder !in s ==> r == Some(s)
    ensures r.Some? && Placeholder in s ==> ExpandReplacement(lit).Some?
  {
    if Placeholder !in s then Some(s)
    else match ExpandReplacement(lit)
      case None => None
      case Some(e) => Some(SubstFirst(s, e))
  }

  /** Text holding neither `$` nor a backslash is copied verbatim. */
  lemma {:induction false} ExpandPlain(rep: string)
    requires '$' !in rep && '\\' !in rep
    ensures ExpandReplacement(rep) == Some(rep)
    decreases |rep|
  {
    if rep != [] {
      ExpandPlain(rep[1..]);
      assert rep == [rep[0]] + rep[1..];
    }
  }

  /** Every `$` or backslash the expansion accepts costs at least one
      character: `\c` becomes `c`, and `$0` with any further zeros becomes `?`. */
  lemma {:induction false} ExpandShortens(rep: string)
    ensures ExpandReplacement(rep).Some? ==> |ExpandReplacement(rep).value| <= |rep|
    ensures ExpandReplacement(rep).Some? && ('$' in rep || '\\' in rep) ==>
              |ExpandReplacement(rep).value| < |rep|
    decreases |rep|
  {
    if rep == [] {
    } else if rep[0] == '\\' {
      if |rep| > 1 {
        ExpandShortens(rep[2..]);
      }
    } else if rep[0] == '$' {
      if |rep| > 1 && rep[1] == '0' {
        ExpandShortens(SkipZeros(rep[2..]));
      }
    } else {
      ExpandShortens(rep[1..]);
      assert rep == [rep[0]] + rep[1..];
      assert '$' in rep || '\\' in rep ==> '$' in rep[1..] || '\\' in rep[1..];
    }
  }

  /** Java's replacement agrees with the literal one exactly when the text has
      no `?` or the literal holds neither `$` nor a backslash. */
  lemma AsWrittenAgreesWithoutMeta(s: string, lit: string)
    ensures ReplaceFirstAsWritten(s, lit) == Some(SubstFirst(s, lit)) <==>
              Placeholder !in s || ('$' !in lit && '\\' !in lit)
  {
    if Placeholder in s {
      if '$' !in lit && '\\' !in lit {
        ExpandPlain(lit);
      } else {
        ExpandShortens(lit);
      }
    }
  }

  /** A string parameter holding `$` makes the preview throw instead of
      showing the value; a backslash in one silently disappears. */
  lemma ReplacementSyntaxCounterexample(pre: string, post: string)
    requires Placeholder !in pre
    ensures ReplaceFirstAsWritten(pre + [Placeholder] + post, "'$5'") == None
    ensures SubstFirst(pre + [Placeholder] + post, "'$5'") == pre + "'$5'" + post
    ensures ReplaceFirstAsWritten(pre + [Placeholder] + post, "'C:\\tmp'") == Some(pre + "'C:tmp'" + post)
    ensures SubstFirst(pre + [Placeholder] + post, "'C:\\tmp'") == pre + "'C:\\tmp'" + post
  {
    SubstFirstSplit(pre, post, "'$5'");
    DollarGroupThrows();
    SubstFirstSplit(pre, post, "'C:\\tmp'");
    BackslashDropped();
    SubstFirstSplit(pre, post, "'C:tmp'");
  }

  /** `$5` names a group the pattern does not have. */
  lemma DollarGroupThrows()
    ensures ExpandReplacement("'$5'") == None
  {
    var dollar := "'$5'";
    assert dollar[1..] == "$5'" && dollar[1..][1] == '5';
    assert ExpandReplacement(dollar[1..]) == None;
  }

  /** `\t` expands to `t`: the backslash is lost. */
  lemma BackslashDropped()
    ensures ExpandReplacement("'C:\\tmp'") == Some("'C:tmp'")
  {
    var backslash := "'C:\\tmp'";
    ExpandPlain("mp'");
    var r3, r2, r1 := "\\tmp'", ":\\tmp'", "C:\\tmp'";
    assert r3[0] == '\\' && r3[1] == 't' && r3[2..] == "mp'";
    assert ExpandReplacement(r3) == Some("tmp'") by { assert ['t'] + "mp'" == "tmp'"; }
    assert r2[0] == ':' && r2[1..] == r3;
    assert ExpandReplacement(r2) == Some(":tmp'") by { assert [':'] + "tmp'" == ":tmp'"; }
    assert r1[0] == 'C' && r1[1..] == r2;
    assert ExpandReplacement(r1) == Some("C:tmp'") by { assert ['C'] + ":tmp'" == "C:tmp'"; }
    assert backslash[0] == '\'' && backslash[1..] == r1;
    assert ExpandReplacement(backslash) == Some("'C:tmp'") by { assert ['\''] + "C:tmp'" == "'C:tmp'"; }
  }
}
