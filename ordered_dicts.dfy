/**
 * The insertion-ordered dictionary underlying ObservableDict: a sequence of
 * entries, where writing a new key appends it and overwriting an existing key
 * keeps its position. The functions define the operations; the lemmas state
 * what they mean for lookups, keys and key order.
 */
module OrderedDicts {
  import opened Outcomes
  import opened Values

  /** `d.get(k)`: the value stored under `k`, or None when `k` is absent. */
  function Lookup(es: seq<Entry>, k: Atom): Option<Value> {
    if |es| == 0 then None
    else if es[0].key == k then Some(es[0].val)
    else Lookup(es[1..], k)
  }

  /** `d[k] = v`: overwrites in place when `k` is present, appends otherwise. */
  function Put(es: seq<Entry>, k: Atom, v: Value): seq<Entry> {
    if |es| == 0 then [Entry(k, v)]
    else if es[0].key == k then [Entry(k, v)] + es[1..]
    else [es[0]] + Put(es[1..], k, v)
  }

  /** `del d[k]`: removes the entry of `k`; the entries are unchanged when `k` is absent. */
  function Delete(es: seq<Entry>, k: Atom): seq<Entry> {
    if |es| == 0 then es
    else if es[0].key == k then es[1..]
    else [es[0]] + Delete(es[1..], k)
  }

  /** `d.update(o)`: writes every entry of `o` into `es`, in `o`'s order. */
  function Merge(es: seq<Entry>, o: seq<Entry>): seq<Entry>
    decreases |o|
  {
    if |o| == 0 then es else Merge(Put(es, o[0].key, o[0].val), o[1..])
  }

  // ---------------------------------------------------------------------------
  // Distinct keys

  lemma DistinctCons(ks: seq<Atom>)
    requires |ks| > 0
    ensures Distinct(ks) <==> ks[0] !in ks[1..] && Distinct(ks[1..])
  {
    if ks[0] !in ks[1..] && Distinct(ks[1..]) {
      forall i, j | 0 <= i < j < |ks| ensures ks[i] != ks[j] {
        assert ks[j] == ks[1..][j - 1];
        if i > 0 { assert ks[i] == ks[1..][i - 1]; }
      }
    }
    if Distinct(ks) {
      forall i, j | 0 <= i < j < |ks[1..]| ensures ks[1..][i] != ks[1..][j] {
        assert ks[1..][i] == ks[i + 1] && ks[1..][j] == ks[j + 1];
      }
      forall j | 0 <= j < |ks[1..]| ensures ks[1..][j] != ks[0] {
        assert ks[1..][j] == ks[j + 1];
      }
    }
  }

  lemma UniqueKeysCons(es: seq<Entry>)
    requires |es| > 0
    ensures UniqueKeys(es) <==> es[0].key !in KeysOf(es[1..]) && UniqueKeys(es[1..])
  {
    DistinctCons(KeysOf(es));
  }

  lemma KeysOfCons(e: Entry, es: seq<Entry>)
    ensures KeysOf([e] + es) == [e.key] + KeysOf(es)
  {
    assert ([e] + es)[1..] == es;
  }

  // ---------------------------------------------------------------------------
  // Lookups

  /** A key is found exactly when it is one of the keys. */
  lemma {:induction false} LookupPresent(es: seq<Entry>, k: Atom)
    ensures Lookup(es, k).Some? <==> k in KeysOf(es)
    decreases |es|
  {
    if |es| > 0 { LookupPresent(es[1..], k); }
  }

  /** With unique keys, the value found under the key of entry `i` is that entry's value. */
  lemma {:induction false} LookupAt(es: seq<Entry>, i: nat)
    requires UniqueKeys(es) && i < |es|
    ensures Lookup(es, es[i].key) == Some(es[i].val)
    decreases |es|
  {
    UniqueKeysCons(es);
    if i > 0 {
      assert KeysOf(es[1..])[i - 1] == es[i].key;
      LookupAt(es[1..], i - 1);
    }
  }

  /** After `d[k] = v`, `k` maps to `v` and every other key to what it mapped to before. */
  lemma {:induction false} PutLookup(es: seq<Entry>, k: Atom, v: Value, k': Atom)
    ensures Lookup(Put(es, k, v), k') == if k' == k then Some(v) else Lookup(es, k')
    decreases |es|
  {
    if |es| > 0 && es[0].key != k {
      PutLookup(es[1..], k, v, k');
      assert (Put(es, k, v))[1..] == Put(es[1..], k, v);
    } else if |es| > 0 {
      assert (Put(es, k, v))[1..] == es[1..];
    }
  }

  /** `d[k] = v` keeps every key in place and appends `k` when it is new. */
  lemma {:induction false} PutKeys(es: seq<Entry>, k: Atom, v: Value)
    ensures KeysOf(Put(es, k, v)) == if k in KeysOf(es) then KeysOf(es) else KeysOf(es) + [k]
    decreases |es|
  {
    if |es| > 0 {
      KeysOfCons(es[0], es[1..]);
      assert es == [es[0]] + es[1..];
      if es[0].key == k {
        KeysOfCons(Entry(k, v), es[1..]);
      } else {
        PutKeys(es[1..], k, v);
        KeysOfCons(es[0], Put(es[1..], k, v));
      }
    }
  }

  /** `d[k] = v` keeps keys unique. */
  lemma PutUnique(es: seq<Entry>, k: Atom, v: Value)
    requires UniqueKeys(es)
    ensures UniqueKeys(Put(es, k, v))
  {
    PutKeys(es, k, v);
    var ks := KeysOf(es);
    if k !in ks {
      var ks' := ks + [k];
      forall i, j | 0 <= i < j < |ks'| ensures ks'[i] != ks'[j] {
        if j == |ks| { assert ks'[i] == ks[i]; }
      }
    }
  }

  /** `del d[k]` removes `k` (keys being unique) and leaves every other key's value alone. */
  lemma {:induction false} DeleteLookup(es: seq<Entry>, k: Atom, k': Atom)
    requires UniqueKeys(es)
    ensures Lookup(Delete(es, k), k') == if k' == k then None else Lookup(es, k')
    decreases |es|
  {
    if |es| > 0 {
      UniqueKeysCons(es);
      if es[0].key == k {
        if k' == k { LookupPresent(es[1..], k); }
      } else {
        DeleteLookup(es[1..], k, k');
        assert Delete(es, k)[1..] == Delete(es[1..], k);
      }
    }
  }

  /** `del d[k]` keeps the other keys and drops one entry exactly when `k` is present. */
  lemma {:induction false} DeleteKeys(es: seq<Entry>, k: Atom)
    requires UniqueKeys(es)
    ensures UniqueKeys(Delete(es, k))
    ensures k !in KeysOf(Delete(es, k))
    ensures forall k' :: k' != k ==> (k' in KeysOf(Delete(es, k)) <==> k' in KeysOf(es))
    ensures |Delete(es, k)| == if k in KeysOf(es) then |es| - 1 else |es|
    decreases |es|
  {
    if |es| > 0 {
      UniqueKeysCons(es);
      KeysOfCons(es[0], es[1..]);
      assert es == [es[0]] + es[1..];
      if es[0].key != k {
        DeleteKeys(es[1..], k);
        KeysOfCons(es[0], Delete(es[1..], k));
        UniqueKeysCons(Delete(es, k));
        assert Delete(es, k)[1..] == Delete(es[1..], k);
      }
    }
  }

  /**
   * `del d[k]` removes exactly the position holding `k` and keeps every other
   * entry in its order.
   */
  lemma {:induction false} DeleteAt(es: seq<Entry>, k: Atom, i: nat)
    requires UniqueKeys(es) && i < |es| && es[i].key == k
    ensures Delete(es, k) == es[..i] + es[i + 1..]
    decreases i
  {
    if i > 0 {
      UniqueKeysCons(es);
      assert es[0].key != k by { assert KeysOf(es[1..])[i - 1] == es[i].key; }
      DeleteAt(es[1..], k, i - 1);
      assert es[..i] + es[i + 1..] == [es[0]] + (es[1..][..i - 1] + es[1..][i..]);
    }
  }

  /** Deleting an absent key leaves the entries as they are. */
  lemma {:induction false} DeleteAbsent(es: seq<Entry>, k: Atom)
    requires k !in KeysOf(es)
    ensures Delete(es, k) == es
    decreases |es|
  {
    if |es| > 0 {
      assert KeysOf(es)[0] == es[0].key;
      assert KeysOf(es[1..]) == KeysOf(es)[1..];
      DeleteAbsent(es[1..], k);
    }
  }

  /** After `d.update(o)`, a key of `o` maps to its value in `o`, any other key as before. */
  lemma {:induction false} MergeLookup(es: seq<Entry>, o: seq<Entry>, k: Atom)
    requires UniqueKeys(o)
    ensures Lookup(Merge(es, o), k) == if k in KeysOf(o) then Lookup(o, k) else Lookup(es, k)
    decreases |o|
  {
    if |o| > 0 {
      UniqueKeysCons(o);
      MergeLookup(Put(es, o[0].key, o[0].val), o[1..], k);
      PutLookup(es, o[0].key, o[0].val, k);
      if k == o[0].key { LookupPresent(o[1..], k); }
    }
  }

  /** `d.update(o)` keeps the existing keys in their order, and adds exactly the keys of `o`. */
  lemma {:induction false} MergeKeys(es: seq<Entry>, o: seq<Entry>)
    ensures |es| <= |Merge(es, o)| && KeysOf(Merge(es, o))[..|es|] == KeysOf(es)
    ensures forall k :: k in KeysOf(Merge(es, o)) <==> k in KeysOf(es) || k in KeysOf(o)
    ensures UniqueKeys(es) ==> UniqueKeys(Merge(es, o))
    decreases |o|
  {
    if |o| > 0 {
      var p := Put(es, o[0].key, o[0].val);
      PutKeys(es, o[0].key, o[0].val);
      if UniqueKeys(es) { PutUnique(es, o[0].key, o[0].val); }
      MergeKeys(p, o[1..]);
      KeysOfCons(o[0], o[1..]);
      assert o == [o[0]] + o[1..];
      assert KeysOf(Merge(es, o))[..|es|] == KeysOf(Merge(p, o[1..]))[..|p|][..|es|];
    }
  }

  /** The keys of `os` not yet among `ks`, in the order of `os`, each once. */
  function NewKeys(ks: seq<Atom>, os: seq<Atom>): seq<Atom>
    decreases |os|
  {
    if |os| == 0 then []
    else if os[0] in ks then NewKeys(ks, os[1..])
    else [os[0]] + NewKeys(ks + [os[0]], os[1..])
  }

  /** Writing key `k` first and then the keys `rest` adds the same new keys as writing `[k] + rest`. */
  lemma NewKeysAfterPut(ks: seq<Atom>, k: Atom, rest: seq<Atom>)
    ensures var ks' := if k in ks then ks else ks + [k];
      ks' + NewKeys(ks', rest) == ks + NewKeys(ks, [k] + rest)
  {
    assert ([k] + rest)[0] == k && ([k] + rest)[1..] == rest;
    if k !in ks {
      assert (ks + [k]) + NewKeys(ks + [k], rest) == ks + ([k] + NewKeys(ks + [k], rest));
    }
  }

  /** `d.update(o)` appends the keys of `o` it did not have, in `o`'s order, each once. */
  lemma {:induction false} MergeKeyOrder(es: seq<Entry>, o: seq<Entry>)
    ensures KeysOf(Merge(es, o)) == KeysOf(es) + NewKeys(KeysOf(es), KeysOf(o))
    decreases |o|
  {
    if |o| > 0 {
      var k := o[0].key;
      var p := Put(es, k, o[0].val);
      PutKeys(es, k, o[0].val);
      MergeKeyOrder(p, o[1..]);
      assert KeysOf(o) == [k] + KeysOf(o[1..]);
      NewKeysAfterPut(KeysOf(es), k, KeysOf(o[1..]));
    }
  }

  /** popitem removes the most recently inserted entry: that is deleting its key. */
  lemma {:induction false} PopLastIsDelete(es: seq<Entry>)
    requires UniqueKeys(es) && |es| > 0
    ensures es[..|es| - 1] == Delete(es, es[|es| - 1].key)
    decreases |es|
  {
    UniqueKeysCons(es);
    if |es| > 1 {
      PopLastIsDelete(es[1..]);
      assert es[1..][..|es| - 2] == es[1..|es| - 1];
      assert es[..|es| - 1] == [es[0]] + es[1..|es| - 1];
      assert es[0].key != es[|es| - 1].key by { assert KeysOf(es[1..])[|es| - 2] == es[|es| - 1].key; }
    }
  }

  // ---------------------------------------------------------------------------
  // Which entries the operations keep

  /** `d[k] = v` keeps old entries and adds only `k: v`. */
  lemma {:induction false} PutMembers(es: seq<Entry>, k: Atom, v: Value)
    ensures forall e :: e in Put(es, k, v) ==> e in es || e == Entry(k, v)
    decreases |es|
  {
    if |es| > 0 && es[0].key != k { PutMembers(es[1..], k, v); }
  }

  /** `del d[k]` adds no entry. */
  lemma {:induction false} DeleteMembers(es: seq<Entry>, k: Atom)
    ensures forall e :: e in Delete(es, k) ==> e in es
    decreases |es|
  {
    if |es| > 0 && es[0].key != k { DeleteMembers(es[1..], k); }
  }

  /** `d.update(o)` only holds entries of `d` or of `o`. */
  lemma {:induction false} MergeMembers(es: seq<Entry>, o: seq<Entry>)
    ensures forall e :: e in Merge(es, o) ==> e in es || e in o
    decreases |o|
  {
    if |o| > 0 {
      PutMembers(es, o[0].key, o[0].val);
      MergeMembers(Put(es, o[0].key, o[0].val), o[1..]);
    }
  }
}
