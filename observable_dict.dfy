/**
 * ObservableDict: a dict whose every overridden mutator performs the dict
 * operation, converting inserted values with make_observable, and then
 * notifies its handler exactly once.
 */
module ObservableDicts {
  import opened Outcomes
  import opened Values
  import opened OrderedDicts

  /** Entries satisfying the deep-wrapping invariant for handler `t`, with unique keys. */
  ghost predicate EntriesWrapped(es: seq<Entry>, t: Target) {
    UniqueKeys(es) && forall e :: e in es ==> Wf(e.val) && DeepWrapped(e.val, t)
  }

  /** The invariant of the entries is the deep-wrapping invariant of the dict as a value. */
  lemma EntriesWrappedIsDeepWrapped(es: seq<Entry>, t: Target)
    ensures EntriesWrapped(es, t) <==> Wf(Dict(Observed(t), es)) && DeepWrapped(Dict(Observed(t), es), t)
  {
    if Wf(Dict(Observed(t), es)) && DeepWrapped(Dict(Observed(t), es), t) {
      forall e | e in es ensures Wf(e.val) && DeepWrapped(e.val, t) {
        var i :| 0 <= i < |es| && es[i] == e;
      }
    }
  }

  /** Converting the values of a dict yields entries that satisfy the invariant. */
  lemma ConvertedEntriesWrapped(es: seq<Entry>, t: Target)
    requires Wf(Dict(Plain, es))
    ensures EntriesWrapped(ConvertEntries(es, t), t)
  {
    var r := ConvertEntries(es, t);
    assert Wf(MakeObservable(Dict(Plain, es), t));
    EntriesWrappedIsDeepWrapped(r, t);
  }

  /** Dropping the last entry is deleting its key, and keeps the invariant. */
  lemma PopLastWrapped(es: seq<Entry>, t: Target)
    requires EntriesWrapped(es, t) && |es| > 0
    ensures es[..|es| - 1] == Delete(es, es[|es| - 1].key)
    ensures EntriesWrapped(es[..|es| - 1], t)
  {
    var k := es[|es| - 1].key;
    PopLastIsDelete(es);
    DeleteKeys(es, k);
    DeleteMembers(es, k);
  }

  class ObservableDict {
    var entries: seq<Entry>
    const onChange: Target
    /** How many times this wrapper has called handle_event(on_change, None). */
    ghost var notifications: nat

    /** The wrapper seen as a value nested in another container. */
    function AsValue(): Value
      reads this
    {
      Dict(Observed(onChange), entries)
    }

    ghost predicate Valid()
      reads this
    {
      EntriesWrapped(entries, onChange)
    }

    /** `ObservableDict(data, on_change)`: copies `data` and converts every value in place. */
    constructor (data: seq<Entry>, onChange: Target)
      requires Wf(Dict(Plain, data))
      ensures Valid()
      ensures AsValue() == MakeObservable(Dict(Plain, data), onChange)
      ensures this.onChange == onChange && notifications == 0
    {
      this.onChange := onChange;
      entries := data;
      notifications := 0;
      new;
      ghost var converted := ConvertEntries(data, onChange);
      var i := 0;
      while i < |entries|
        invariant 0 <= i <= |entries| == |data|
        invariant forall j :: 0 <= j < i ==> entries[j] == converted[j]
        invariant forall j :: i <= j < |entries| ==> entries[j] == data[j]
        invariant notifications == 0
      {
        entries := entries[i := Entry(entries[i].key, MakeObservable(entries[i].val, onChange))];
        i := i + 1;
      }
      assert entries == converted;
      ConvertedEntriesWrapped(data, onChange);
    }

    /** `pop(k, d=None)`: never raises; notifies even when `k` was absent. */
    method Pop(k: Atom, d: Value := Scalar(PyNone)) returns (item: Value)
      requires Valid()
      modifies this
      ensures Valid()
      ensures item == match Lookup(old(entries), k) case Some(v) => v case None => d
      ensures entries == Delete(old(entries), k)
      ensures notifications == old(notifications) + 1
    {
      item := match Lookup(entries, k) case Some(v) => v case None => d;
      DeleteKeys(entries, k);
      DeleteMembers(entries, k);
      entries := Delete(entries, k);
      notifications := notifications + 1;
    }

    /** `popitem()`: removes the last inserted entry; KeyError, and no notification, when empty. */
    method PopItem() returns (r: Result<Entry>)
      requires Valid()
      modifies this
      ensures Valid()
      ensures old(entries) == [] ==> r == Err(KeyError) && entries == old(entries) && notifications == old(notifications)
      ensures old(entries) != [] ==>
        && r == Ok(old(entries)[|old(entries)| - 1])
        && entries == Delete(old(entries), r.value.key)
        && notifications == old(notifications) + 1
    {
      if |entries| == 0 {
        return Err(KeyError);
      }
      var last := entries[|entries| - 1];
      PopLastWrapped(entries, onChange);
      entries := entries[..|entries| - 1];
      notifications := notifications + 1;
      r := Ok(last);
    }

    /**
     * `update(*args)`: the operand goes through `dict(*args)`, which accepts
     * at most one positional argument; with more it raises TypeError before
     * anything changes or is notified. Otherwise one notification covers the
     * whole batch, even when there is nothing to merge.
     */
    method Update(args: seq<seq<Entry>>) returns (r: Outcome)
      requires Valid()
      requires forall i :: 0 <= i < |args| ==> Wf(Dict(Plain, args[i]))
      modifies this
      ensures Valid()
      ensures |args| > 1 ==> r == Fail(TypeError) && entries == old(entries) && notifications == old(notifications)
      ensures |args| == 0 ==> r == Pass && entries == old(entries) && notifications == old(notifications) + 1
      ensures |args| == 1 ==>
        && r == Pass
        && entries == Merge(old(entries), ConvertEntries(args[0], onChange))
        && notifications == old(notifications) + 1
    {
      if |args| > 1 {
        return Fail(TypeError);
      }
      if |args| == 1 {
        MergeConverted(args[0]);
      }
      notifications := notifications + 1;
      r := Pass;
    }

    /** `clear()`: notifies even when already empty. */
    method Clear()
      requires Valid()
      modifies this
      ensures Valid() && entries == [] && notifications == old(notifications) + 1
    {
      entries := [];
      notifications := notifications + 1;
    }

    /** `setdefault(k, d=None)`: inserts the converted default only when `k` is absent; always notifies. */
    method SetDefault(k: Atom, d: Value := Scalar(PyNone)) returns (item: Value)
      requires Valid() && Wf(d)
      modifies this
      ensures Valid()
      ensures match Lookup(old(entries), k)
        case Some(v) => item == v && entries == old(entries)
        case None => item == MakeObservable(d, onChange) && entries == Put(old(entries), k, item)
      ensures notifications == old(notifications) + 1
    {
      var w := MakeObservable(d, onChange);
      match Lookup(entries, k) {
        case Some(v) =>
          item := v;
        case None =>
          PutWrapped(k, w);
          item := w;
      }
      notifications := notifications + 1;
    }

    /** `d[k] = v`: stores the converted value. */
    method SetItem(k: Atom, v: Value)
      requires Valid() && Wf(v)
      modifies this
      ensures Valid()
      ensures entries == Put(old(entries), k, MakeObservable(v, onChange))
      ensures Lookup(entries, k) == Some(MakeObservable(v, onChange))
      ensures notifications == old(notifications) + 1
    {
      PutLookup(entries, k, MakeObservable(v, onChange), k);
      PutWrapped(k, MakeObservable(v, onChange));
      notifications := notifications + 1;
    }

    /** `del d[k]`: KeyError, and no notification, when `k` is absent. */
    method DelItem(k: Atom) returns (r: Outcome)
      requires Valid()
      modifies this
      ensures Valid()
      ensures Lookup(old(entries), k).None? ==> r == Fail(KeyError) && entries == old(entries) && notifications == old(notifications)
      ensures Lookup(old(entries), k).Some? ==> r == Pass && entries == Delete(old(entries), k) && notifications == old(notifications) + 1
    {
      if Lookup(entries, k).None? {
        return Fail(KeyError);
      }
      DeleteKeys(entries, k);
      DeleteMembers(entries, k);
      entries := Delete(entries, k);
      notifications := notifications + 1;
      r := Pass;
    }

    /** `d | other`: a new plain dict; the wrapper is left alone and nothing is notified. */
    method Or(other: seq<Entry>) returns (r: Value)
      ensures r == Dict(Plain, Merge(entries, other))
    {
      r := Dict(Plain, Merge(entries, other));
    }

    /** `d |= other`: merges the converted operand, notifies once, returns the wrapper itself. */
    method IOr(other: seq<Entry>) returns (r: ObservableDict)
      requires Valid() && Wf(Dict(Plain, other))
      modifies this
      ensures r == this && Valid()
      ensures entries == Merge(old(entries), ConvertEntries(other, onChange))
      ensures notifications == old(notifications) + 1
    {
      MergeConverted(other);
      notifications := notifications + 1;
      r := this;
    }

    /** Writes one converted value, keeping the invariant. */
    method PutWrapped(k: Atom, w: Value)
      requires Valid() && Wf(w) && DeepWrapped(w, onChange)
      modifies this`entries
      ensures Valid() && entries == Put(old(entries), k, w)
    {
      PutUnique(entries, k, w);
      PutMembers(entries, k, w);
      entries := Put(entries, k, w);
    }

    /** Merges the converted entries of `other`, keeping the invariant. */
    method MergeConverted(other: seq<Entry>)
      requires Valid() && Wf(Dict(Plain, other))
      modifies this`entries
      ensures Valid() && entries == Merge(old(entries), ConvertEntries(other, onChange))
    {
      var converted := ConvertEntries(other, onChange);
      ConvertedEntriesWrapped(other, onChange);
      MergeKeys(entries, converted);
      MergeMembers(entries, converted);
      entries := Merge(entries, converted);
    }
  }
}
