/** The parameter map `getBoundSql` parses from JSON and repairs in place:
    entries in iteration order, `put` replacing the value of a present key where
    it stands and adding an absent key at the end. */
module ParamMaps {
  import opened Values

  type Entries = seq<(string, Value)>

  ghost predicate KeysDistinct(es: Entries)
  {
    forall i, j :: 0 <= i < j < |es| ==> es[i].0 != es[j].0
  }

  /** `map.get(k)`, `None` for an absent key. */
  function Lookup(es: Entries, k: string): (r: Option<Value>)
    ensures r.Some? <==> exists i :: 0 <= i < |es| && es[i].0 == k
    ensures forall i :: 0 <= i < |es| && es[i].0 == k && (forall j :: 0 <= j < i ==> es[j].0 != k) ==> r == Some(es[i].1)
  {
    if es == [] then None
    else if es[0].0 == k then Some(es[0].1)
    else
      var r := Lookup(es[1..], k);
      assert forall i :: 1 <= i < |es| ==> es[i] == es[1..][i - 1];
      r
  }

  /** `map.put(k, v)`. */
  function PutEntry(es: Entries, k: string, v: Value): (r: Entries)
    requires KeysDistinct(es)
    ensures |r| == |es| || (|r| == |es| + 1 && r[|es|] == (k, v) && forall i :: 0 <= i < |es| ==> es[i].0 != k)
    ensures forall i :: 0 <= i < |es| ==> r[i] == if es[i].0 == k then (k, v) else es[i]
    ensures |r| == |es| ==> exists i :: 0 <= i < |es| && es[i].0 == k
    ensures KeysDistinct(r)
  {
    if es == [] then [(k, v)]
    else if es[0].0 == k then [(k, v)] + es[1..]
    else [es[0]] + PutEntry(es[1..], k, v)
  }

  lemma PutEntryLookup(es: Entries, k: string, v: Value, k': string)
    requires KeysDistinct(es)
    ensures Lookup(PutEntry(es, k, v), k') == if k' == k then Some(v) else Lookup(es, k')
  {
    var r := PutEntry(es, k, v);
    if exists i :: 0 <= i < |es| && es[i].0 == k' {
      var i :| 0 <= i < |es| && es[i].0 == k';
      assert Lookup(es, k') == Some(es[i].1);
      assert r[i] == if k' == k then (k, v) else es[i];
      assert Lookup(r, k') == Some(r[i].1);
    } else if k' == k {
      assert r[|es|] == (k, v);
      assert Lookup(r, k') == Some(r[|es|].1);
    } else {
      assert forall i :: 0 <= i < |r| ==> r[i].0 != k';
    }
  }

  /** Putting twice under one key leaves the second value. */
  lemma {:induction false} PutPut(es: Entries, k: string, a: Value, b: Value)
    requires KeysDistinct(es)
    ensures PutEntry(PutEntry(es, k, a), k, b) == PutEntry(es, k, b)
    decreases |es|
  {
    if es != [] && es[0].0 != k {
      PutPut(es[1..], k, a, b);
    }
  }

  /** Putting the value a key already has changes nothing. */
  lemma PutPresent(es: Entries, i: nat, k: string, v: Value)
    requires KeysDistinct(es) && i < |es| && es[i] == (k, v)
    ensures PutEntry(es, k, v) == es
  {
    var r := PutEntry(es, k, v);
    assert |r| == |es|;
    assert forall j :: 0 <= j < |es| ==> r[j] == es[j];
  }

  /** Index of the last entry, under a key other than `key`, whose value is a
      `Collection`: the value the repair loop puts last. */
  function LastCollection(es: Entries, key: string): (r: Option<nat>)
    ensures r.Some? ==> r.value < |es| && es[r.value].0 != key && es[r.value].1.Coll?
    ensures forall j :: (if r.Some? then r.value < j else 0 <= j) && j < |es| ==> es[j].0 == key || !es[j].1.Coll?
  {
    if es == [] then None
    else if es[|es| - 1].0 != key && es[|es| - 1].1.Coll? then Some(|es| - 1)
    else LastCollection(es[..|es| - 1], key)
  }

  /** The map after the repair loop put the collections of the first `n`
      entries under `key`. */
  function RepairedUpTo(es: Entries, key: string, n: nat): Entries
    requires KeysDistinct(es) && n <= |es|
  {
    match LastCollection(es[..n], key)
    case Some(i) => PutEntry(es, key, es[i].1)
    case None => es
  }

  /** The map after the whole repair loop. */
  function Repaired(es: Entries, key: string): Entries
    requires KeysDistinct(es)
  {
    RepairedUpTo(es, key, |es|)
  }

  /** One turn of the loop: the value it reads at position `i` is the live one,
      so at `key`'s own position it reads what an earlier turn put there. */
  lemma RepairStep(es: Entries, key: string, i: nat)
    requires KeysDistinct(es) && i < |es|
    ensures i < |RepairedUpTo(es, key, i)|
    ensures var cur := RepairedUpTo(es, key, i);
            RepairedUpTo(es, key, i + 1) == if cur[i].1.Coll? then PutEntry(cur, key, cur[i].1) else cur
  {
    var cur := RepairedUpTo(es, key, i);
    assert es[..i + 1][..i] == es[..i];
    var before := LastCollection(es[..i], key);
    if es[i].0 != key {
      assert cur[i] == es[i];
      if es[i].1.Coll? {
        assert LastCollection(es[..i + 1], key) == Some(i);
        if before.Some? {
          PutPut(es, key, es[before.value].1, es[i].1);
        }
      } else {
        assert LastCollection(es[..i + 1], key) == before;
      }
    } else {
      assert LastCollection(es[..i + 1], key) == before;
      if cur[i].1.Coll? {
        PutPresent(cur, i, key, cur[i].1);
      }
    }
  }

  /** After the repair, `key` holds the collection of the last other entry
      holding one; when no other entry holds a collection the map is unchanged;
      no other key changes. */
  lemma RepairedLookup(es: Entries, key: string, k: string)
    requires KeysDistinct(es)
    ensures k != key ==> Lookup(Repaired(es, key), k) == Lookup(es, k)
    ensures LastCollection(es, key).Some? ==>
              Lookup(Repaired(es, key), key) == Some(es[LastCollection(es, key).value].1)
    ensures LastCollection(es, key).None? ==> Repaired(es, key) == es
  {
    assert es[..|es|] == es;
    var last := LastCollection(es, key);
    if last.Some? {
      assert Repaired(es, key) == PutEntry(es, key, es[last.value].1);
      PutEntryLookup(es, key, es[last.value].1, k);
      PutEntryLookup(es, key, es[last.value].1, key);
    }
  }

  /** The collection under `key` itself never wins over another entry's: with
      two collections, the other one ends up under `key`. */
  lemma OwnCollectionLoses(key: string, other: string, own: seq<Value>, theirs: seq<Value>)
    requires key != other
    ensures Repaired([(other, Coll(theirs)), (key, Coll(own))], key) == [(other, Coll(theirs)), (key, Coll(theirs))]
  {
    var es := [(other, Coll(theirs)), (key, Coll(own))];
    assert es[..|es|] == es;
    assert es[..1] == [(other, Coll(theirs))];
    assert LastCollection(es, key) == Some(0);
  }

  /** `Map<String, Object>` as `getBoundSql` holds it. */
  class ParamMap {
    var entries: Entries

    ghost predicate Valid()
      reads this
    {
      KeysDistinct(entries)
    }

    constructor (es: Entries)
      requires KeysDistinct(es)
      ensures Valid() && entries == es
    {
      entries := es;
    }

    method Put(k: string, v: Value)
      requires Valid()
      modifies this
      ensures Valid() && entries == PutEntry(old(entries), k, v)
    {
      entries := PutEntry(entries, k, v);
    }

    /** The loop of `getBoundSql` over `map.values()`: every value that is a
        `Collection`, read when the iteration reaches it, is put under `key`. */
    method Repair(key: string)
      requires Valid()
      modifies this
      ensures Valid() && entries == Repaired(old(entries), key)
    {
      ghost var es := entries;
      var n := |entries|;
      var i := 0;
      assert es[..0] == [];
      assert es[..n] == es;
      while i < n
        invariant 0 <= i <= n == |es|
        invariant Valid()
        invariant entries == RepairedUpTo(es, key, i)
      {
        RepairStep(es, key, i);
        var v := entries[i].1;
        if v.Coll? {
          Put(key, v);
        }
        i := i + 1;
      }
    }
  }
}
