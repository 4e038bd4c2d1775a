/**
 * Values that live inside observable containers, and the conversion
 * (make_observable) that turns every nested dict, list or set into a wrapper
 * bound to one change handler.
 *
 * A nested container is modelled as a value: a `Wrap` tag records whether it
 * is a plain container or a wrapper bound to a handler.
 */
module Values {

  /** Hashable scalars: everything that may be a dict key or a set element. */
  datatype Atom = PyNone | Num(n: int) | Str(s: string)

  /** Identity of a change handler (the `on_change` callable). */
  type Target = nat

  /** A plain built-in container, or an observable wrapper bound to a handler. */
  datatype Wrap = Plain | Observed(target: Target)

  /** One key/value pair of a dict. */
  datatype Entry = Entry(key: Atom, val: Value)

  datatype Value =
    | Scalar(atom: Atom)
    | Dict(wrap: Wrap, entries: seq<Entry>)   // in insertion order
    | List(wrap: Wrap, items: seq<Value>)
    | Set(wrap: Wrap, elems: set<Atom>)       // set elements are hashable, hence scalars

  /** The keys of a dict, in insertion order. */
  function KeysOf(es: seq<Entry>): (ks: seq<Atom>)
    ensures |ks| == |es| && forall i :: 0 <= i < |es| ==> ks[i] == es[i].key
  {
    if |es| == 0 then [] else [es[0].key] + KeysOf(es[1..])
  }

  /** No atom occurs twice. */
  predicate Distinct(ks: seq<Atom>) {
    forall i, j :: 0 <= i < j < |ks| ==> ks[i] != ks[j]
  }

  /** No key occurs twice among the entries of a dict. */
  predicate UniqueKeys(es: seq<Entry>) {
    Distinct(KeysOf(es))
  }

  /** Every dict reachable in `v` has unique keys, as every real dict does. */
  predicate Wf(v: Value) {
    match v
    case Scalar(_) => true
    case Dict(_, es) => UniqueKeys(es) && forall i :: 0 <= i < |es| ==> Wf(es[i].val)
    case List(_, xs) => forall i :: 0 <= i < |xs| ==> Wf(xs[i])
    case Set(_, _) => true
  }

  /**
   * The deep-wrapping invariant: `v` and every container nested in it is a
   * wrapper bound to `t`; no plain container is reachable.
   */
  predicate DeepWrapped(v: Value, t: Target) {
    match v
    case Scalar(_) => true
    case Dict(w, es) => w == Observed(t) && forall i :: 0 <= i < |es| ==> DeepWrapped(es[i].val, t)
    case List(w, xs) => w == Observed(t) && forall i :: 0 <= i < |xs| ==> DeepWrapped(xs[i], t)
    case Set(w, _) => w == Observed(t)
  }

  /** `v` with every wrapper replaced by the plain container it extends. */
  function Strip(v: Value): (r: Value)
    ensures r.Scalar? <==> v.Scalar?
    ensures r.Dict? <==> v.Dict?
    ensures r.List? <==> v.List?
    ensures r.Set? <==> v.Set?
  {
    match v
    case Scalar(_) => v
    case Dict(_, es) => Dict(Plain, seq(|es|, i requires 0 <= i < |es| => Entry(es[i].key, Strip(es[i].val))))
    case List(_, xs) => List(Plain, seq(|xs|, i requires 0 <= i < |xs| => Strip(xs[i])))
    case Set(_, s) => Set(Plain, s)
  }

  /**
   * Python's `==` between two values: wrappers compare equal to the plain
   * containers they extend, dicts compare as mappings (insertion order does
   * not matter), lists element by element, sets by membership.
   */
  predicate PyEq(a: Value, b: Value)
    decreases a, 0, 0
  {
    match a
    case Scalar(x) => b.Scalar? && b.atom == x
    case Dict(_, ea) =>
      b.Dict? && |ea| == |b.entries| &&
      forall i :: 0 <= i < |ea| ==> MatchIn(ea[i], b.entries)
    case List(_, xa) =>
      b.List? && |xa| == |b.items| &&
      forall i :: 0 <= i < |xa| ==> PyEq(xa[i], b.items[i])
    case Set(_, sa) => b.Set? && b.elems == sa
  }

  /** Some entry of `es` has the key of `e` and a value equal to its value. */
  predicate MatchIn(e: Entry, es: seq<Entry>)
    decreases e.val, 1, |es|
  {
    |es| > 0 && ((es[0].key == e.key && PyEq(e.val, es[0].val)) || MatchIn(e, es[1..]))
  }

  /**
   * make_observable: a dict, list or set becomes a fresh wrapper bound to `t`
   * whose contents are converted the same way; any other value is returned
   * as it is. An existing wrapper is a dict, list or set too, so it is
   * copied into a new wrapper bound to `t`.
   */
  function MakeObservable(v: Value, t: Target): (r: Value)
    ensures DeepWrapped(r, t)
    ensures Strip(r) == Strip(v)
    ensures Wf(v) ==> Wf(r)
    ensures v.Scalar? ==> r == v
    ensures !v.Scalar? ==> r.wrap == Observed(t)
    decreases v
  {
    match v
    case Scalar(_) => v
    case Dict(_, es) =>
      Dict(Observed(t), seq(|es|, i requires 0 <= i < |es| => Entry(es[i].key, MakeObservable(es[i].val, t))))
    case List(_, xs) =>
      List(Observed(t), seq(|xs|, i requires 0 <= i < |xs| => MakeObservable(xs[i], t)))
    case Set(_, s) => Set(Observed(t), s)
  }

  /** Converts each value of a dict's entries, keeping keys and order (the constructor's loop). */
  function ConvertEntries(es: seq<Entry>, t: Target): (r: seq<Entry>)
    ensures |r| == |es|
    ensures forall i :: 0 <= i < |es| ==> r[i].key == es[i].key && DeepWrapped(r[i].val, t)
    ensures Dict(Observed(t), r) == MakeObservable(Dict(Plain, es), t)
  {
    seq(|es|, i requires 0 <= i < |es| => Entry(es[i].key, MakeObservable(es[i].val, t)))
  }

  /** Converts each item of a list, keeping their order. */
  function ConvertAll(xs: seq<Value>, t: Target): (r: seq<Value>)
    ensures |r| == |xs|
    ensures forall i :: 0 <= i < |xs| ==> DeepWrapped(r[i], t) && Strip(r[i]) == Strip(xs[i])
    ensures List(Observed(t), r) == MakeObservable(List(Plain, xs), t)
  {
    seq(|xs|, i requires 0 <= i < |xs| => MakeObservable(xs[i], t))
  }

  /** Re-wrapping forgets the old handler: only the last target counts. */
  lemma {:induction false} RewrapRebinds(v: Value, t1: Target, t2: Target)
    ensures MakeObservable(MakeObservable(v, t1), t2) == MakeObservable(v, t2)
    decreases v
  {
    match v
    case Scalar(_) =>
    case Set(_, _) =>
    case Dict(_, es) =>
      var es1 := MakeObservable(v, t1).entries;
      forall i | 0 <= i < |es| ensures MakeObservable(es1[i].val, t2) == MakeObservable(es[i].val, t2) {
        RewrapRebinds(es[i].val, t1, t2);
      }
    case List(_, xs) =>
      var xs1 := MakeObservable(v, t1).items;
      forall i | 0 <= i < |xs| ensures MakeObservable(xs1[i], t2) == MakeObservable(xs[i], t2) {
        RewrapRebinds(xs[i], t1, t2);
      }
  }

  /**
   * Converting a value that already satisfies the deep-wrapping invariant
   * for `t` gives an equal value (in the program, a fresh copy of it).
   */
  lemma {:induction false} RewrapSameTarget(v: Value, t: Target)
    requires DeepWrapped(v, t)
    ensures MakeObservable(v, t) == v
    decreases v
  {
    match v
    case Scalar(_) =>
    case Set(_, _) =>
    case Dict(_, es) =>
      forall i | 0 <= i < |es| ensures MakeObservable(es[i].val, t) == es[i].val {
        RewrapSameTarget(es[i].val, t);
      }
      assert MakeObservable(v, t).entries == es;
    case List(_, xs) =>
      forall i | 0 <= i < |xs| ensures MakeObservable(xs[i], t) == xs[i] {
        RewrapSameTarget(xs[i], t);
      }
      assert MakeObservable(v, t).items == xs;
  }

  /** An entry with the same key and an equal value at position `i` of `es` is a match. */
  lemma {:induction false} MatchInAt(e: Entry, es: seq<Entry>, i: nat)
    requires i < |es| && es[i].key == e.key && PyEq(e.val, es[i].val)
    ensures MatchIn(e, es)
    decreases i
  {
    if i > 0 {
      MatchInAt(e, es[1..], i - 1);
    }
  }

  /** Values that differ only in their wrappers are equal under Python's `==`. */
  lemma {:induction false} SameContentsPyEq(a: Value, b: Value)
    requires Strip(a) == Strip(b)
    ensures PyEq(a, b)
    decreases a
  {
    match a
    case Scalar(_) =>
    case Set(_, _) =>
    case Dict(_, ea) =>
      var eb := b.entries;
      assert |ea| == |Strip(a).entries| == |Strip(b).entries| == |eb|;
      forall i | 0 <= i < |ea| ensures MatchIn(ea[i], eb) {
        assert Strip(a).entries[i] == Strip(b).entries[i];
        SameContentsPyEq(ea[i].val, eb[i].val);
        MatchInAt(ea[i], eb, i);
      }
    case List(_, xa) =>
      var xb := b.items;
      assert |xa| == |Strip(a).items| == |Strip(b).items| == |xb|;
      forall i | 0 <= i < |xa| ensures PyEq(xa[i], xb[i]) {
        assert Strip(a).items[i] == Strip(b).items[i];
        SameContentsPyEq(xa[i], xb[i]);
      }
  }

  /** A converted value compares equal to the value it was made from. */
  lemma MakeObservablePyEq(v: Value, t: Target)
    ensures PyEq(MakeObservable(v, t), v)
  {
    SameContentsPyEq(MakeObservable(v, t), v);
  }
}
