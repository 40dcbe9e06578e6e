/** The record normaliser `convert_numpy_types`: a recursive rewrite that
    rebuilds dicts and lists and replaces every numpy scalar by its `item()`. */
module Normalizer {
  import opened OddValues

  /** True when no numpy scalar is left anywhere in the tree. */
  predicate Clean(v: Val) {
    match v
    case Map(es) => forall i :: 0 <= i < |es| ==> Clean(es[i].1)
    case List(vs) => forall i :: 0 <= i < |vs| ==> Clean(vs[i])
    case Wrapped(_) => false
    case Plain(_) => true
  }

  /** The native value a scalar stands for: its `item()` for a numpy scalar,
      itself otherwise. */
  function ScalarValue(v: Val): Native
    requires v.Wrapped? || v.Plain?
  {
    if v.Wrapped? then v.item else v.native
  }

  /** `b` has the shape of `a`: the same kind of node everywhere, the same keys
      in the same order, the same lengths, and leaves that stand for the same
      native value (whether wrapped or not). */
  ghost predicate SameShape(a: Val, b: Val)
    decreases a
  {
    match a
    case Map(xs) =>
      b.Map? && |xs| == |b.entries| &&
      forall i :: 0 <= i < |xs| ==> xs[i].0 == b.entries[i].0 && SameShape(xs[i].1, b.entries[i].1)
    case List(xs) =>
      b.List? && |xs| == |b.items| &&
      forall i :: 0 <= i < |xs| ==> SameShape(xs[i], b.items[i])
    case _ =>
      (b.Wrapped? || b.Plain?) && ScalarValue(b) == ScalarValue(a)
  }

  /** `convert_numpy_types`: the result keeps the input's shape and leaf values
      and holds no numpy scalar. */
  function Normalize(v: Val): (r: Val)
    ensures Clean(r)
    ensures SameShape(v, r)
  {
    match v
    case Map(es) => Map(seq(|es|, i requires 0 <= i < |es| => (es[i].0, Normalize(es[i].1))))
    case List(vs) => List(seq(|vs|, i requires 0 <= i < |vs| => Normalize(vs[i])))
    case Wrapped(n) => Plain(n)
    case Plain(_) => v
  }

  /** A clean tree of the input's shape is the normalised input: the
      contract of Normalize determines its result. */
  lemma {:induction false} NormalizeUnique(v: Val, r: Val)
    requires Clean(r) && SameShape(v, r)
    ensures r == Normalize(v)
  {
    match v
    case Map(es) =>
      var n := Normalize(v);
      forall i | 0 <= i < |es| ensures r.entries[i] == n.entries[i] {
        NormalizeUnique(es[i].1, r.entries[i].1);
      }
      assert r.entries == n.entries;
    case List(vs) =>
      var n := Normalize(v);
      forall i | 0 <= i < |vs| ensures r.items[i] == n.items[i] {
        NormalizeUnique(vs[i], r.items[i]);
      }
      assert r.items == n.items;
    case Wrapped(_) =>
    case Plain(_) =>
  }

  /** The values normalisation leaves alone are exactly the clean ones. */
  lemma {:induction false} NormalizeFixpoint(v: Val)
    ensures Normalize(v) == v <==> Clean(v)
  {
    if Clean(v) {
      SameShapeReflexive(v);
      NormalizeUnique(v, v);
    }
  }

  lemma {:induction false} SameShapeReflexive(v: Val)
    ensures SameShape(v, v)
  {
    match v
    case Map(es) =>
      forall i | 0 <= i < |es| ensures SameShape(es[i].1, es[i].1) {
        SameShapeReflexive(es[i].1);
      }
    case List(vs) =>
      forall i | 0 <= i < |vs| ensures SameShape(vs[i], vs[i]) {
        SameShapeReflexive(vs[i]);
      }
    case Wrapped(_) =>
    case Plain(_) =>
  }

  /** Normalising twice is normalising once. */
  lemma NormalizeIdempotent(v: Val)
    ensures Normalize(Normalize(v)) == Normalize(v)
  {
    NormalizeFixpoint(Normalize(v));
  }

  /** A dict is rebuilt key by key: looking a key up in the normalised dict
      gives the normalised value of the original lookup. */
  lemma {:induction false} NormalizeLookup(es: seq<(Key, Val)>, k: Key)
    ensures Normalize(Map(es)).Map?
    ensures Lookup(Normalize(Map(es)).entries, k) ==
            match Lookup(es, k) case Some(x) => Some(Normalize(x)) case None => None
  {
    var ns := Normalize(Map(es)).entries;
    if es != [] {
      NormalizeLookup(es[1..], k);
      assert Normalize(Map(es[1..])).entries == ns[1..];
    }
  }

  /** A numpy scalar becomes its native value, which is not normalised again;
      any other scalar is returned unchanged. */
  lemma ScalarNormalize(v: Val)
    requires v.Wrapped? || v.Plain?
    ensures Normalize(v) == Plain(ScalarValue(v))
  {
  }
}
