/**
 * ObservableList: a list whose every overridden mutator performs the list
 * operation, converting inserted items with make_observable, and then
 * notifies its handler exactly once.
 */
module ObservableLists {
  import opened Outcomes
  import opened Values
  import opened Ordering

  /** Items satisfying the deep-wrapping invariant for handler `t`. */
  ghost predicate ItemsWrapped(xs: seq<Value>, t: Target) {
    forall v :: v in xs ==> Wf(v) && DeepWrapped(v, t)
  }

  /** The invariant of the items is the deep-wrapping invariant of the list as a value. */
  lemma ItemsWrappedIsDeepWrapped(xs: seq<Value>, t: Target)
    ensures ItemsWrapped(xs, t) <==> Wf(List(Observed(t), xs)) && DeepWrapped(List(Observed(t), xs), t)
  {
    if Wf(List(Observed(t), xs)) && DeepWrapped(List(Observed(t), xs), t) {
      forall v | v in xs ensures Wf(v) && DeepWrapped(v, t) {
        var i :| 0 <= i < |xs| && xs[i] == v;
      }
    }
  }

  /** Converting the items of a list yields items that satisfy the invariant. */
  lemma ConvertedItemsWrapped(xs: seq<Value>, t: Target)
    requires forall v :: v in xs ==> Wf(v)
    ensures ItemsWrapped(ConvertAll(xs, t), t)
  {
    var r := ConvertAll(xs, t);
    forall v | v in r ensures Wf(v) && DeepWrapped(v, t) {
      var i :| 0 <= i < |r| && r[i] == v;
      assert Wf(xs[i]);
    }
  }

  /**
   * The position `list.insert(index, x)` uses in a list of length `n`: a
   * negative index counts from the end, and an index outside the list is
   * clamped to its nearest end.
   */
  function InsertPosition(index: int, n: nat): (p: nat)
    ensures p <= n
    ensures 0 <= index <= n ==> p == index
    ensures index < 0 <= index + n ==> p == n + index
    ensures index > n ==> p == n
    ensures index + n < 0 ==> p == 0
  {
    if index < 0 then (if index + n < 0 then 0 else index + n)
    else if index > n then n
    else index
  }

  /**
   * The position a subscript denotes in a list of length `n` (a negative
   * index counts from the end), or None when it is out of range.
   */
  function Resolve(index: int, n: nat): (r: Option<nat>)
    ensures r.Some? <==> 0 <= index + n && index < n
    ensures r.Some? ==> r.value < n && r.value % n == index % n
  {
    if index < 0 then (if index + n < 0 then None else Some(index + n))
    else if index >= n then None
    else Some(index)
  }

  /** The first position whose item equals `v` under Python's `==`. */
  function IndexOf(xs: seq<Value>, v: Value): (r: Option<nat>)
    ensures r.Some? ==> r.value < |xs| && PyEq(xs[r.value], v)
    ensures r.Some? ==> forall j :: 0 <= j < r.value ==> !PyEq(xs[j], v)
    ensures r.None? ==> forall j :: 0 <= j < |xs| ==> !PyEq(xs[j], v)
  {
    if |xs| == 0 then None
    else if PyEq(xs[0], v) then Some(0)
    else match IndexOf(xs[1..], v)
      case None => None
      case Some(i) => Some(i + 1)
  }

  /** The items in the opposite order. */
  function Reversed(xs: seq<Value>): seq<Value> {
    seq(|xs|, i requires 0 <= i < |xs| => xs[|xs| - 1 - i])
  }

  /** Reversing twice gives the list back, and reversing keeps every item. */
  lemma ReversedInvolution(xs: seq<Value>)
    ensures Reversed(Reversed(xs)) == xs
    ensures multiset(Reversed(xs)) == multiset(xs)
  {
    assert Reversed(Reversed(xs)) == xs;
    if |xs| > 0 {
      var r := Reversed(xs);
      ReversedInvolution(xs[1..]);
      assert r == Reversed(xs[1..]) + [xs[0]];
      assert xs == [xs[0]] + xs[1..];
    }
  }

  /** `xs` without the item at position `i`. */
  function RemoveAt(xs: seq<Value>, i: nat): (r: seq<Value>)
    requires i < |xs|
    ensures |r| == |xs| - 1
    ensures forall v :: v in r ==> v in xs
  {
    xs[..i] + xs[i + 1..]
  }

  class ObservableList {
    var items: seq<Value>
    const onChange: Target
    /** How many times this wrapper has called handle_event(on_change, None). */
    ghost var notifications: nat

    /** The wrapper seen as a value nested in another container. */
    function AsValue(): Value
      reads this
    {
      List(Observed(onChange), items)
    }

    ghost predicate Valid()
      reads this
    {
      ItemsWrapped(items, onChange)
    }

    /** `ObservableList(data, on_change)`: copies `data` and converts every item in place. */
    constructor (data: seq<Value>, onChange: Target)
      requires forall v :: v in data ==> Wf(v)
      ensures Valid()
      ensures AsValue() == MakeObservable(List(Plain, data), onChange)
      ensures this.onChange == onChange && notifications == 0
    {
      this.onChange := onChange;
      items := data;
      notifications := 0;
      new;
      ghost var converted := ConvertAll(data, onChange);
      var i := 0;
      while i < |items|
        invariant 0 <= i <= |items| == |data|
        invariant forall j :: 0 <= j < i ==> items[j] == converted[j]
        invariant forall j :: i <= j < |items| ==> items[j] == data[j]
        invariant notifications == 0
      {
        items := items[i := MakeObservable(items[i], onChange)];
        i := i + 1;
      }
      assert items == converted;
      ConvertedItemsWrapped(data, onChange);
    }

    /** `append(x)`: adds the converted item at the end. */
    method Append(x: Value)
      requires Valid() && Wf(x)
      modifies this
      ensures Valid()
      ensures items == old(items) + [MakeObservable(x, onChange)]
      ensures notifications == old(notifications) + 1
    {
      items := items + [MakeObservable(x, onChange)];
      notifications := notifications + 1;
    }

    /** `extend(xs)`: adds the converted items at the end, with one notification for the batch. */
    method Extend(xs: seq<Value>)
      requires Valid() && forall v :: v in xs ==> Wf(v)
      modifies this
      ensures Valid()
      ensures items == old(items) + ConvertAll(xs, onChange)
      ensures notifications == old(notifications) + 1
    {
      ConvertedItemsWrapped(xs, onChange);
      items := items + ConvertAll(xs, onChange);
      notifications := notifications + 1;
    }

    /** `insert(index, x)`: the converted item ends up at the clamped position. */
    method Insert(index: int, x: Value)
      requires Valid() && Wf(x)
      modifies this
      ensures Valid()
      ensures var p := InsertPosition(index, |old(items)|);
        items == old(items)[..p] + [MakeObservable(x, onChange)] + old(items)[p..]
      ensures notifications == old(notifications) + 1
    {
      var p := InsertPosition(index, |items|);
      items := items[..p] + [MakeObservable(x, onChange)] + items[p..];
      notifications := notifications + 1;
    }

    /** `remove(x)`: drops the first item equal to `x`; ValueError, and no notification, when there is none. */
    method Remove(x: Value) returns (r: Outcome)
      requires Valid()
      modifies this
      ensures Valid()
      ensures IndexOf(old(items), x).None? ==> r == Fail(ValueError) && items == old(items) && notifications == old(notifications)
      ensures IndexOf(old(items), x).Some? ==>
        && r == Pass
        && items == RemoveAt(old(items), IndexOf(old(items), x).value)
        && notifications == old(notifications) + 1
    {
      match IndexOf(items, x) {
        case None =>
          r := Fail(ValueError);
        case Some(i) =>
          items := RemoveAt(items, i);
          notifications := notifications + 1;
          r := Pass;
      }
    }

    /** `pop(index=-1)`: IndexError, and no notification, on an empty list or an index out of range. */
    method Pop(index: int := -1) returns (r: Result<Value>)
      requires Valid()
      modifies this
      ensures Valid()
      ensures Resolve(index, |old(items)|).None? ==> r == Err(IndexError) && items == old(items) && notifications == old(notifications)
      ensures Resolve(index, |old(items)|).Some? ==>
        var i := Resolve(index, |old(items)|).value;
        && r == Ok(old(items)[i])
        && items == RemoveAt(old(items), i)
        && notifications == old(notifications) + 1
    {
      match Resolve(index, |items|) {
        case None =>
          r := Err(IndexError);
        case Some(i) =>
          r := Ok(items[i]);
          items := RemoveAt(items, i);
          notifications := notifications + 1;
      }
    }

    /** `clear()`: notifies even when already empty. */
    method Clear()
      requires Valid()
      modifies this
      ensures Valid() && items == [] && notifications == old(notifications) + 1
    {
      items := [];
      notifications := notifications + 1;
    }

    /**
     * `sort()`: ascending order, notifying even when the order does not
     * change; TypeError, and no notification, when two items cannot be compared.
     */
    method Sort() returns (r: Outcome)
      requires Valid()
      modifies this
      ensures Valid()
      ensures Sortable(old(items)) ==> r == Pass && items == Ordering.Sort(old(items)) && notifications == old(notifications) + 1
      ensures !Sortable(old(items)) ==> r == Fail(TypeError) && items == old(items) && notifications == old(notifications)
    {
      if !Sortable(items) {
        return Fail(TypeError);
      }
      SortCorrect(items);
      assert forall v :: v in Ordering.Sort(items) ==> v in items by {
        forall v | v in Ordering.Sort(items) ensures v in items { assert v in multiset(Ordering.Sort(items)); }
      }
      items := Ordering.Sort(items);
      notifications := notifications + 1;
      r := Pass;
    }

    /** `reverse()`: notifies even when the order does not change. */
    method Reverse()
      requires Valid()
      modifies this
      ensures Valid()
      ensures items == Reversed(old(items))
      ensures notifications == old(notifications) + 1
    {
      assert forall v :: v in Reversed(items) ==> v in items;
      items := Reversed(items);
      notifications := notifications + 1;
    }

    /** `del l[index]`: IndexError, and no notification, for an index out of range. */
    method DelItem(index: int) returns (r: Outcome)
      requires Valid()
      modifies this
      ensures Valid()
      ensures Resolve(index, |old(items)|).None? ==> r == Fail(IndexError) && items == old(items) && notifications == old(notifications)
      ensures Resolve(index, |old(items)|).Some? ==>
        && r == Pass
        && items == RemoveAt(old(items), Resolve(index, |old(items)|).value)
        && notifications == old(notifications) + 1
    {
      match Resolve(index, |items|) {
        case None =>
          r := Fail(IndexError);
        case Some(i) =>
          items := RemoveAt(items, i);
          notifications := notifications + 1;
          r := Pass;
      }
    }

    /** `l[index] = x`: stores the converted item; IndexError, and no notification, out of range. */
    method SetItem(index: int, x: Value) returns (r: Outcome)
      requires Valid() && Wf(x)
      modifies this
      ensures Valid()
      ensures Resolve(index, |old(items)|).None? ==> r == Fail(IndexError) && items == old(items) && notifications == old(notifications)
      ensures Resolve(index, |old(items)|).Some? ==>
        && r == Pass
        && items == old(items)[Resolve(index, |old(items)|).value := MakeObservable(x, onChange)]
        && notifications == old(notifications) + 1
    {
      var w := MakeObservable(x, onChange);
      match Resolve(index, |items|) {
        case None =>
          r := Fail(IndexError);
        case Some(i) =>
          items := items[i := w];
          notifications := notifications + 1;
          r := Pass;
      }
    }

    /** `l + other`: a new plain list; the wrapper is left alone and nothing is notified. */
    method Add(other: seq<Value>) returns (r: Value)
      ensures r == List(Plain, items + other)
    {
      r := List(Plain, items + other);
    }

    /** `l += other`: extends by the converted operand, notifies once, returns the wrapper itself. */
    method IAdd(other: seq<Value>) returns (r: ObservableList)
      requires Valid() && forall v :: v in other ==> Wf(v)
      modifies this
      ensures r == this && Valid()
      ensures items == old(items) + ConvertAll(other, onChange)
      ensures notifications == old(notifications) + 1
    {
      ConvertedItemsWrapped(other, onChange);
      items := items + ConvertAll(other, onChange);
      notifications := notifications + 1;
      r := this;
    }
  }
}
