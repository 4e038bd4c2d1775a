/**
 * The order list.sort uses, restricted to scalars: numbers compare
 * numerically, strings lexicographically by code point, and a number and a
 * string (or None with anything) cannot be compared. Python also orders lists
 * lexicographically and sets by inclusion; sorting containers is outside this
 * model, which treats a list holding any container as unsortable.
 */
module Ordering {
  import opened Values

  /** Python's `a <= b` on strings. */
  predicate StrLe(a: string, b: string) {
    |a| == 0 || (|b| > 0 && (a[0] < b[0] || (a[0] == b[0] && StrLe(a[1..], b[1..]))))
  }

  /** Python's `a <= b` on two numbers or two strings; false for every other pair. */
  predicate ValueLe(a: Value, b: Value) {
    a.Scalar? && b.Scalar? &&
    match (a.atom, b.atom)
    case (Num(x), Num(y)) => x <= y
    case (Str(x), Str(y)) => StrLe(x, y)
    case _ => false
  }

  predicate AllNums(xs: seq<Value>) {
    forall v :: v in xs ==> v.Scalar? && v.atom.Num?
  }

  predicate AllStrs(xs: seq<Value>) {
    forall v :: v in xs ==> v.Scalar? && v.atom.Str?
  }

  /**
   * list.sort succeeds without comparing anything on fewer than two items;
   * in this model a longer list sorts when it holds only numbers or only
   * strings.
   */
  predicate Sortable(xs: seq<Value>) {
    |xs| <= 1 || AllNums(xs) || AllStrs(xs)
  }

  predicate Sorted(xs: seq<Value>) {
    forall i :: 0 <= i < |xs| - 1 ==> ValueLe(xs[i], xs[i + 1])
  }

  /** Places `x` before the first item it is not greater than. */
  function Insert(x: Value, xs: seq<Value>): seq<Value> {
    if |xs| == 0 then [x]
    else if ValueLe(x, xs[0]) then [x] + xs
    else [xs[0]] + Insert(x, xs[1..])
  }

  /** The ascending order list.sort produces. */
  function Sort(xs: seq<Value>): seq<Value> {
    if |xs| == 0 then [] else Insert(xs[0], Sort(xs[1..]))
  }

  lemma {:induction false} StrLeTotal(a: string, b: string)
    ensures StrLe(a, b) || StrLe(b, a)
    decreases |a|
  {
    if |a| > 0 && |b| > 0 && a[0] == b[0] { StrLeTotal(a[1..], b[1..]); }
  }

  /** Two numbers, or two strings, are always ordered one way or the other. */
  lemma ValueLeTotal(a: Value, b: Value)
    requires a.Scalar? && b.Scalar?
    requires (a.atom.Num? && b.atom.Num?) || (a.atom.Str? && b.atom.Str?)
    ensures ValueLe(a, b) || ValueLe(b, a)
  {
    if a.atom.Str? { StrLeTotal(a.atom.s, b.atom.s); }
  }

  /** Inserting keeps the items and adds `x`. */
  lemma {:induction false} InsertPermutation(x: Value, xs: seq<Value>)
    ensures multiset(Insert(x, xs)) == multiset(xs) + multiset{x}
    decreases |xs|
  {
    if |xs| > 0 {
      assert xs == [xs[0]] + xs[1..];
      if !ValueLe(x, xs[0]) { InsertPermutation(x, xs[1..]); }
    }
  }

  /** Inserting a comparable item into a sorted list keeps it sorted. */
  lemma {:induction false} InsertSorted(x: Value, xs: seq<Value>)
    requires Sorted(xs)
    requires AllNums([x] + xs) || AllStrs([x] + xs)
    ensures Sorted(Insert(x, xs))
    ensures |Insert(x, xs)| > 0 && (Insert(x, xs)[0] == x || Insert(x, xs)[0] == xs[0])
    decreases |xs|
  {
    if |xs| > 0 {
      assert x in [x] + xs && xs[0] in [x] + xs;
      ValueLeTotal(x, xs[0]);
      if !ValueLe(x, xs[0]) {
        var rest := xs[1..];
        assert AllNums([x] + rest) || AllStrs([x] + rest) by {
          assert forall v :: v in [x] + rest ==> v in [x] + xs;
        }
        InsertSorted(x, rest);
        var r := Insert(x, xs);
        assert r == [xs[0]] + Insert(x, rest);
        if |rest| > 0 { assert ValueLe(xs[0], xs[1]); }
        forall i | 0 <= i < |r| - 1 ensures ValueLe(r[i], r[i + 1]) {
          if i > 0 { assert r[i] == Insert(x, rest)[i - 1] && r[i + 1] == Insert(x, rest)[i]; }
        }
      }
    }
  }

  /** The sorted list is a permutation of the input. */
  lemma {:induction false} SortPermutation(xs: seq<Value>)
    ensures multiset(Sort(xs)) == multiset(xs)
    decreases |xs|
  {
    if |xs| > 0 {
      SortPermutation(xs[1..]);
      InsertPermutation(xs[0], Sort(xs[1..]));
      assert xs == [xs[0]] + xs[1..];
    }
  }

  /** Sorting a list whose items are all numbers or all strings puts them in ascending order. */
  lemma {:induction false} SortSorted(xs: seq<Value>)
    requires AllNums(xs) || AllStrs(xs)
    ensures Sorted(Sort(xs))
    decreases |xs|
  {
    if |xs| > 0 {
      assert AllNums(xs[1..]) || AllStrs(xs[1..]) by {
        assert forall v :: v in xs[1..] ==> v in xs;
      }
      SortSorted(xs[1..]);
      var s := Sort(xs[1..]);
      SortPermutation(xs[1..]);
      assert forall v :: v in s ==> v in xs[1..] by {
        forall v | v in s ensures v in xs[1..] { assert v in multiset(s); }
      }
      assert AllNums([xs[0]] + s) || AllStrs([xs[0]] + s) by {
        assert forall v :: v in [xs[0]] + s ==> v in xs;
      }
      InsertSorted(xs[0], s);
    }
  }

  /** Whatever list.sort accepts comes out sorted and a permutation of what went in. */
  lemma SortCorrect(xs: seq<Value>)
    requires Sortable(xs)
    ensures Sorted(Sort(xs)) && multiset(Sort(xs)) == multiset(xs)
  {
    SortPermutation(xs);
    if |xs| <= 1 {
      assert |Sort(xs)| == |xs| by { assert |multiset(Sort(xs))| == |multiset(xs)|; }
    } else {
      SortSorted(xs);
    }
  }
}
