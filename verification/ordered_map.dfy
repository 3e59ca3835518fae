/** A Java `LinkedHashMap<String, V>` as a sequence of entries in insertion
    order. `Put` on a present key replaces the value in place, so a key keeps
    the position of its first insertion and the value of its last. */
module OrderedMap {
  import opened Wrappers

  function Keys<V>(m: seq<(string, V)>): (r: seq<string>)
    ensures |r| == |m|
    ensures forall i :: 0 <= i < |m| ==> r[i] == m[i].0
  {
    if |m| == 0 then [] else [m[0].0] + Keys(m[1..])
  }

  predicate DistinctKeys<V>(m: seq<(string, V)>)
  {
    forall i, j :: 0 <= i < j < |m| ==> m[i].0 != m[j].0
  }

  predicate Distinct(ks: seq<string>)
  {
    forall i, j :: 0 <= i < j < |ks| ==> ks[i] != ks[j]
  }

  lemma {:induction false} DistinctCount(a: seq<string>, x: string)
    requires Distinct(a) && x in a
    ensures multiset(a)[x] == 1
  {
    assert a == [a[0]] + a[1..];
    if a[0] == x {
      assert x !in a[1..];
    } else {
      DistinctCount(a[1..], x);
    }
  }

  /** `LinkedHashMap.get`: the value of the entry for `k`. */
  function Get<V>(m: seq<(string, V)>, k: string): Option<V>
  {
    if |m| == 0 then None
    else if m[0].0 == k then Some(m[0].1)
    else Get(m[1..], k)
  }

  /** `LinkedHashMap.put`: replaces the value of a present key in place,
      otherwise appends a new entry. */
  function Put<V>(m: seq<(string, V)>, k: string, v: V): seq<(string, V)>
  {
    if |m| == 0 then [(k, v)]
    else if m[0].0 == k then [(k, v)] + m[1..]
    else [m[0]] + Put(m[1..], k, v)
  }

  /** The map after `put`-ting every entry of `ps`, first to last. */
  function PutAll<V>(m: seq<(string, V)>, ps: seq<(string, V)>): seq<(string, V)>
  {
    if |ps| == 0 then m
    else Put(PutAll(m, ps[..|ps| - 1]), ps[|ps| - 1].0, ps[|ps| - 1].1)
  }

  lemma {:induction false} GetKeys<V>(m: seq<(string, V)>, k: string)
    ensures Get(m, k).Some? <==> k in Keys(m)
    ensures Get(m, k).Some? ==> (k, Get(m, k).value) in m
  {
    if |m| > 0 && m[0].0 != k {
      GetKeys(m[1..], k);
      assert Keys(m) == [m[0].0] + Keys(m[1..]);
    }
  }

  lemma {:induction false} PutKeys<V>(m: seq<(string, V)>, k: string, v: V)
    ensures Keys(Put(m, k, v)) == if k in Keys(m) then Keys(m) else Keys(m) + [k]
  {
    if |m| > 0 && m[0].0 != k {
      PutKeys(m[1..], k, v);
      assert Keys(m) == [m[0].0] + Keys(m[1..]);
    }
  }

  lemma {:induction false} PutGet<V>(m: seq<(string, V)>, k: string, v: V, k': string)
    ensures Get(Put(m, k, v), k') == if k' == k then Some(v) else Get(m, k')
  {
    if |m| > 0 && m[0].0 != k {
      PutGet(m[1..], k, v, k');
    }
  }

  lemma {:induction false} PutEntries<V>(m: seq<(string, V)>, k: string, v: V)
    ensures forall e :: e in Put(m, k, v) ==> e in m || e == (k, v)
  {
    if |m| > 0 && m[0].0 != k {
      PutEntries(m[1..], k, v);
    }
  }

  lemma {:induction false} AppendNewKey<V>(m: seq<(string, V)>, k: string, v: V)
    requires k !in Keys(m)
    ensures Put(m, k, v) == m + [(k, v)]
  {
    if |m| > 0 {
      assert Keys(m) == [m[0].0] + Keys(m[1..]);
      AppendNewKey(m[1..], k, v);
      assert m == [m[0]] + m[1..];
    }
  }

  /** Every entry of the map comes from one of the `put` calls. */
  lemma {:induction false} PutAllEntries<V>(ps: seq<(string, V)>)
    ensures forall e :: e in PutAll([], ps) ==> e in ps
  {
    if |ps| > 0 {
      var init := ps[..|ps| - 1];
      var last := ps[|ps| - 1];
      PutAllEntries(init);
      PutEntries(PutAll([], init), last.0, last.1);
      forall e | e in PutAll([], ps)
        ensures e in ps
      {
        assert e in PutAll([], init) || e == last;
        if e != last {
          var i :| 0 <= i < |init| && init[i] == e;
          assert ps[i] == e;
        }
      }
    }
  }

  /** The first position of `k` in `ks`. */
  function FirstIndex(ks: seq<string>, k: string): (r: nat)
    requires k in ks
    ensures r < |ks| && ks[r] == k
    ensures forall i :: 0 <= i < r ==> ks[i] != k
  {
    if ks[0] == k then 0 else 1 + FirstIndex(ks[1..], k)
  }

  /** `r` lists the keys of `ks` in the order of their first occurrence. */
  predicate FirstOccurrenceOrder(ks: seq<string>, r: seq<string>)
  {
    && Distinct(r)
    && (forall k :: k in r ==> k in ks)
    && (forall k :: k in ks ==> k in r)
    && (forall i, j :: 0 <= i < j < |r| ==> FirstIndex(ks, r[i]) < FirstIndex(ks, r[j]))
  }

  /** Putting a sequence of entries into an empty map yields each key once,
      ordered by the key's first occurrence in the sequence. */
  lemma {:induction false} PutAllKeys<V>(ps: seq<(string, V)>)
    ensures FirstOccurrenceOrder(Keys(ps), Keys(PutAll([], ps)))
  {
    if |ps| > 0 {
      var init := ps[..|ps| - 1];
      var p := ps[|ps| - 1];
      assert init + [p] == ps;
      var before := PutAll([], init);
      PutAllKeys(init);
      KeysAppend(init, p);
      PutKeys(before, p.0, p.1);
      FirstOccurrenceStep(Keys(init), p.0, Keys(before));
    }
  }

  lemma {:induction false} KeysAppend<V>(m: seq<(string, V)>, p: (string, V))
    ensures Keys(m + [p]) == Keys(m) + [p.0]
  {
    var a := Keys(m + [p]);
    var b := Keys(m) + [p.0];
    assert |a| == |b|;
    forall i | 0 <= i < |a| ensures a[i] == b[i] {
      if i < |m| { assert (m + [p])[i] == m[i]; }
    }
  }

  lemma FirstOccurrenceStep(ks: seq<string>, k: string, r: seq<string>)
    requires FirstOccurrenceOrder(ks, r)
    ensures FirstOccurrenceOrder(ks + [k], if k in r then r else r + [k])
  {
    forall x | x in ks
      ensures FirstIndex(ks + [k], x) == FirstIndex(ks, x)
    {
      FirstIndexPrefix(ks, [k], x);
    }
    if k !in r {
      var r' := r + [k];
      forall i | 0 <= i < |r|
        ensures FirstIndex(ks + [k], r[i]) < FirstIndex(ks + [k], k)
      {
        assert r[i] in ks;
        assert (ks + [k])[|ks|] == k;
      }
      assert forall i :: 0 <= i < |r| ==> r'[i] == r[i];
    }
  }

  lemma {:induction false} FirstIndexPrefix(a: seq<string>, b: seq<string>, k: string)
    requires k in a
    ensures FirstIndex(a + b, k) == FirstIndex(a, k)
  {
    if a[0] != k {
      FirstIndexPrefix(a[1..], b, k);
      assert (a + b)[1..] == a[1..] + b;
    }
  }

  /** No entry after position `i` has key `k`. */
  predicate LastAt<V>(ps: seq<(string, V)>, k: string, i: nat)
  {
    forall j :: i < j < |ps| ==> ps[j].0 != k
  }

  /** The value of the last entry for `k`; `None` when no entry has key `k`. */
  function LastValue<V>(ps: seq<(string, V)>, k: string): Option<V>
  {
    if |ps| == 0 then None
    else if ps[|ps| - 1].0 == k then Some(ps[|ps| - 1].1)
    else LastValue(ps[..|ps| - 1], k)
  }

  /** `LastValue` is found exactly for the keys present, and is the value of
      an entry for `k` that no later entry overrides. */
  lemma {:induction false} LastValueEntry<V>(ps: seq<(string, V)>, k: string)
    ensures LastValue(ps, k).None? <==> k !in Keys(ps)
    ensures LastValue(ps, k).Some? ==>
      exists i :: 0 <= i < |ps| && ps[i] == (k, LastValue(ps, k).value) && LastAt(ps, k, i)
  {
    if |ps| > 0 {
      var init := ps[..|ps| - 1];
      var last := ps[|ps| - 1];
      KeysAppend(init, last);
      assert init + [last] == ps;
      if last.0 == k {
        assert LastAt(ps, k, |ps| - 1);
      } else {
        LastValueEntry(init, k);
        var r := LastValue(init, k);
        if r.Some? {
          var i :| 0 <= i < |init| && init[i] == (k, r.value) && LastAt(init, k, i);
          assert ps[i] == init[i];
          assert LastAt(ps, k, i);
        }
      }
    }
  }

  /** A key is bound to the value of its last entry in the sequence. */
  lemma {:induction false} PutAllLastValue<V>(ps: seq<(string, V)>, k: string)
    ensures Get(PutAll([], ps), k) == LastValue(ps, k)
  {
    if |ps| > 0 {
      PutAllLastValue(ps[..|ps| - 1], k);
      PutGet(PutAll([], ps[..|ps| - 1]), ps[|ps| - 1].0, ps[|ps| - 1].1, k);
    }
  }

  /** Without repeated keys the map is the sequence itself. */
  lemma {:induction false} PutAllDistinct<V>(ps: seq<(string, V)>)
    requires DistinctKeys(ps)
    ensures PutAll([], ps) == ps
  {
    if |ps| > 0 {
      var init := ps[..|ps| - 1];
      var last := ps[|ps| - 1];
      assert DistinctKeys(init);
      PutAllDistinct(init);
      assert last.0 !in Keys(init) by {
        forall i | 0 <= i < |init| ensures Keys(init)[i] != last.0 {
          assert ps[i].0 != ps[|ps| - 1].0;
        }
      }
      AppendNewKey(init, last.0, last.1);
      assert init + [last] == ps;
    }
  }
}
