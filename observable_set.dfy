/**
 * ObservableSet: a set whose every overridden mutator performs the set
 * operation and then notifies its handler exactly once. Set elements are
 * hashable scalars, so make_observable returns them unchanged.
 */
module ObservableSets {
  import opened Outcomes
  import opened Values

  /** `s.intersection(*others)`: the elements of `s` found in every operand. */
  function IntersectAll(s: set<Atom>, others: seq<set<Atom>>): (r: set<Atom>)
    ensures forall x :: x in r <==> x in s && forall j :: 0 <= j < |others| ==> x in others[j]
    decreases |others|
  {
    if |others| == 0 then s
    else
      var r := IntersectAll(s * others[0], others[1..]);
      assert forall j :: 1 <= j < |others| ==> others[j] == others[1..][j - 1];
      r
  }

  /** `s.difference(*others)`: the elements of `s` found in no operand. */
  function SubtractAll(s: set<Atom>, others: seq<set<Atom>>): (r: set<Atom>)
    ensures forall x :: x in r <==> x in s && forall j :: 0 <= j < |others| ==> x !in others[j]
    decreases |others|
  {
    if |others| == 0 then s
    else
      var r := SubtractAll(s - others[0], others[1..]);
      assert forall j :: 1 <= j < |others| ==> others[j] == others[1..][j - 1];
      r
  }

  /** `s ^ o`: the elements in exactly one of the two sets. */
  function SymmetricDifference(s: set<Atom>, o: set<Atom>): (r: set<Atom>)
    ensures forall x :: x in r <==> (x in s <==> x !in o)
  {
    (s - o) + (o - s)
  }

  /** The elements of an iterable, as `set(xs)` collects them. */
  function Elements(xs: seq<Atom>): (r: set<Atom>)
    ensures forall x :: x in r <==> exists i :: 0 <= i < |xs| && xs[i] == x
  {
    set x | x in xs
  }

  /** Converting a set copies it into a wrapper and leaves every element as it is. */
  lemma SetConversionKeepsElements(w: Wrap, s: set<Atom>, t: Target)
    ensures MakeObservable(Set(w, s), t) == Set(Observed(t), s)
    ensures forall x :: x in s ==> MakeObservable(Scalar(x), t) == Scalar(x)
  {
  }

  class ObservableSet {
    var elems: set<Atom>
    const onChange: Target
    /** How many times this wrapper has called handle_event(on_change, None). */
    ghost var notifications: nat

    /** The wrapper seen as a value nested in another container. */
    function AsValue(): Value
      reads this
    {
      Set(Observed(onChange), elems)
    }

    /** `ObservableSet(data, on_change)`: copies `data` and re-adds every converted element. */
    constructor (data: set<Atom>, onChange: Target)
      ensures elems == data
      ensures AsValue() == MakeObservable(Set(Plain, data), onChange)
      ensures DeepWrapped(AsValue(), onChange)
      ensures this.onChange == onChange && notifications == 0
    {
      this.onChange := onChange;
      elems := data;
      notifications := 0;
      new;
      var rest := data;
      while rest != {}
        invariant rest <= data && elems == data
        invariant notifications == 0
        decreases rest
      {
        var x :| x in rest;
        elems := elems + {MakeObservable(Scalar(x), onChange).atom};
        rest := rest - {x};
      }
    }

    /** `add(x)`. */
    method Add(x: Atom)
      modifies this
      ensures elems == old(elems) + {x}
      ensures notifications == old(notifications) + 1
    {
      elems := elems + {MakeObservable(Scalar(x), onChange).atom};
      notifications := notifications + 1;
    }

    /** `remove(x)`: KeyError, and no notification, when `x` is absent. */
    method Remove(x: Atom) returns (r: Outcome)
      modifies this
      ensures x !in old(elems) ==> r == Fail(KeyError) && elems == old(elems) && notifications == old(notifications)
      ensures x in old(elems) ==> r == Pass && elems == old(elems) - {x} && notifications == old(notifications) + 1
    {
      if x !in elems {
        return Fail(KeyError);
      }
      elems := elems - {x};
      notifications := notifications + 1;
      r := Pass;
    }

    /** `discard(x)`: never fails; notifies even when `x` was absent. */
    method Discard(x: Atom)
      modifies this
      ensures elems == old(elems) - {x}
      ensures notifications == old(notifications) + 1
    {
      elems := elems - {x};
      notifications := notifications + 1;
    }

    /** `pop()`: removes and returns some element; KeyError, and no notification, when empty. */
    method Pop() returns (r: Result<Atom>)
      modifies this
      ensures old(elems) == {} ==> r == Err(KeyError) && elems == old(elems) && notifications == old(notifications)
      ensures old(elems) != {} ==>
        && r.Ok? && r.value in old(elems)
        && elems == old(elems) - {r.value}
        && notifications == old(notifications) + 1
    {
      if elems == {} {
        return Err(KeyError);
      }
      var x :| x in elems;
      elems := elems - {x};
      notifications := notifications + 1;
      r := Ok(x);
    }

    /** `clear()`: notifies even when already empty. */
    method Clear()
      modifies this
      ensures elems == {} && notifications == old(notifications) + 1
    {
      elems := {};
      notifications := notifications + 1;
    }

    /**
     * `update(*iterables)`: the operands go through `set(*iterables)`, which
     * accepts at most one iterable; with more it raises TypeError before
     * anything changes or is notified.
     */
    method Update(iterables: seq<seq<Atom>>) returns (r: Outcome)
      modifies this
      ensures |iterables| > 1 ==> r == Fail(TypeError) && elems == old(elems) && notifications == old(notifications)
      ensures |iterables| == 0 ==> r == Pass && elems == old(elems) && notifications == old(notifications) + 1
      ensures |iterables| == 1 ==> r == Pass && elems == old(elems) + Elements(iterables[0]) && notifications == old(notifications) + 1
    {
      if |iterables| > 1 {
        return Fail(TypeError);
      }
      var operand := if |iterables| == 0 then {} else Elements(iterables[0]);
      elems := elems + MakeObservable(Set(Plain, operand), onChange).elems;
      notifications := notifications + 1;
      r := Pass;
    }

    /** `intersection_update(*others)`: notifies even when nothing is removed. */
    method IntersectionUpdate(others: seq<set<Atom>>)
      modifies this
      ensures elems == IntersectAll(old(elems), others)
      ensures notifications == old(notifications) + 1
    {
      elems := IntersectAll(elems, others);
      notifications := notifications + 1;
    }

    /** `difference_update(*others)`: notifies even when nothing is removed. */
    method DifferenceUpdate(others: seq<set<Atom>>)
      modifies this
      ensures elems == SubtractAll(old(elems), others)
      ensures notifications == old(notifications) + 1
    {
      elems := SubtractAll(elems, others);
      notifications := notifications + 1;
    }

    /**
     * `symmetric_difference_update(*others)`: the built-in method takes
     * exactly one operand, so any other number raises TypeError before
     * anything changes or is notified; with one operand it notifies even
     * when that operand is empty.
     */
    method SymmetricDifferenceUpdate(others: seq<set<Atom>>) returns (r: Outcome)
      modifies this
      ensures |others| != 1 ==> r == Fail(TypeError) && elems == old(elems) && notifications == old(notifications)
      ensures |others| == 1 ==>
        && r == Pass
        && elems == SymmetricDifference(old(elems), others[0])
        && notifications == old(notifications) + 1
    {
      if |others| != 1 {
        return Fail(TypeError);
      }
      elems := SymmetricDifference(elems, others[0]);
      notifications := notifications + 1;
      r := Pass;
    }

    /** `s | other`: a new plain set; the wrapper is left alone and nothing is notified. */
    method Or(other: set<Atom>) returns (r: Value)
      ensures r == Set(Plain, elems + other)
    {
      r := Set(Plain, elems + other);
    }

    /** `s & other`: a new plain set, no notification. */
    method And(other: set<Atom>) returns (r: Value)
      ensures r == Set(Plain, elems * other)
    {
      r := Set(Plain, elems * other);
    }

    /** `s - other`: a new plain set, no notification. */
    method Sub(other: set<Atom>) returns (r: Value)
      ensures r == Set(Plain, elems - other)
    {
      r := Set(Plain, elems - other);
    }

    /** `s ^ other`: a new plain set, no notification. */
    method Xor(other: set<Atom>) returns (r: Value)
      ensures r == Set(Plain, SymmetricDifference(elems, other))
    {
      r := Set(Plain, SymmetricDifference(elems, other));
    }

    /** `s |= other`: unites with the converted operand, notifies once, returns the wrapper itself. */
    method IOr(other: set<Atom>) returns (r: ObservableSet)
      modifies this
      ensures r == this && elems == old(elems) + other
      ensures notifications == old(notifications) + 1
    {
      elems := elems + MakeObservable(Set(Plain, other), onChange).elems;
      notifications := notifications + 1;
      r := this;
    }

    /** `s &= other`. */
    method IAnd(other: set<Atom>) returns (r: ObservableSet)
      modifies this
      ensures r == this && elems == old(elems) * other
      ensures notifications == old(notifications) + 1
    {
      elems := elems * MakeObservable(Set(Plain, other), onChange).elems;
      notifications := notifications + 1;
      r := this;
    }

    /** `s -= other`. */
    method ISub(other: set<Atom>) returns (r: ObservableSet)
      modifies this
      ensures r == this && elems == old(elems) - other
      ensures notifications == old(notifications) + 1
    {
      elems := elems - MakeObservable(Set(Plain, other), onChange).elems;
      notifications := notifications + 1;
      r := this;
    }

    /** `s ^= other`. */
    method IXor(other: set<Atom>) returns (r: ObservableSet)
      modifies this
      ensures r == this && elems == SymmetricDifference(old(elems), other)
      ensures notifications == old(notifications) + 1
    {
      elems := SymmetricDifference(elems, MakeObservable(Set(Plain, other), onChange).elems);
      notifications := notifications + 1;
      r := this;
    }
  }
}
