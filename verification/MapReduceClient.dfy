/** What the framework knows of its client: keys, values, outputs, and an order on keys. */
module MapReduceClient {

  type Key(!new, ==)
  type Value(!new, ==)
  type Output(!new, ==)

  type Pair = (Key, Value)
  type IntermediateVec = seq<Pair>
  type Less = (Key, Key) -> bool

  predicate Equivalent(less: Less, a: Key, b: Key) {
    !less(a, b) && !less(b, a)
  }

  /** The order a client's operator< must be: std::sort demands it, and so does grouping by equivalence. */
  ghost predicate StrictWeakOrder(less: Less) {
    && (forall a :: !less(a, a))
    && (forall a, b, c :: less(a, b) && less(b, c) ==> less(a, c))
    && (forall a, b, c :: Equivalent(less, a, b) && Equivalent(less, b, c) ==> Equivalent(less, a, c))
  }

  predicate Sorted(less: Less, v: IntermediateVec) {
    forall i, j :: 0 <= i < j < |v| ==> !less(v[j].0, v[i].0)
  }

  /** a <= b < c or a < b <= c gives a < c. */
  lemma LessThrough(less: Less, a: Key, b: Key, c: Key)
    requires StrictWeakOrder(less)
    requires (!less(b, a) && less(b, c)) || (less(a, b) && !less(c, b))
    ensures less(a, c)
  {
    assert less(b, c) && less(c, a) ==> less(b, a);
    assert less(c, a) && less(a, b) ==> less(c, b);
    assert Equivalent(less, b, a) && Equivalent(less, a, c) ==> Equivalent(less, b, c);
    assert Equivalent(less, a, c) && Equivalent(less, c, b) ==> Equivalent(less, a, b);
  }

  /** Below an equivalent key is below. */
  lemma LessEquivalent(less: Less, a: Key, b: Key, c: Key)
    requires StrictWeakOrder(less) && less(a, b) && Equivalent(less, b, c)
    ensures less(a, c)
  {
    LessThrough(less, a, b, c);
  }

  /** No key of v is above k. */
  predicate AtMost(less: Less, v: IntermediateVec, k: Key) {
    forall j :: 0 <= j < |v| ==> !less(k, v[j].0)
  }

  predicate AllBelow(less: Less, v: IntermediateVec, k: Key) {
    forall j :: 0 <= j < |v| ==> less(v[j].0, k)
  }

  /** In a sorted vector the last key bounds the others. */
  lemma LastIsMax(less: Less, v: IntermediateVec, k: Key)
    requires StrictWeakOrder(less) && Sorted(less, v) && v != []
    ensures !less(k, v[|v| - 1].0) ==> AtMost(less, v, k)
    ensures less(v[|v| - 1].0, k) ==> AllBelow(less, v, k)
  {
    var last := v[|v| - 1].0;
    forall j | 0 <= j < |v|
      ensures !less(k, last) ==> !less(k, v[j].0)
      ensures less(last, k) ==> less(v[j].0, k)
    {
      assert !less(last, v[j].0);
      if !less(k, last) && less(k, v[j].0) {
        LessThrough(less, k, v[j].0, last);
      }
      if less(last, k) {
        LessThrough(less, v[j].0, last, k);
      }
    }
  }

  /** What std::sort promises: v' is v in order. */
  ghost predicate IsSorting(less: Less, v: IntermediateVec, v': IntermediateVec) {
    multiset(v') == multiset(v) && Sorted(less, v')
  }

  /** The promise can be kept. */
  lemma {:induction false} SortExists(less: Less, v: IntermediateVec) returns (v': IntermediateVec)
    requires StrictWeakOrder(less)
    ensures IsSorting(less, v, v')
  {
    if v == [] {
      v' := [];
    } else {
      var n := |v| - 1;
      var w := SortExists(less, v[..n]);
      v' := Insertion(less, w, v[n]);
      assert v == v[..n] + [v[n]];
    }
  }

  lemma SortedAppend(less: Less, v: IntermediateVec, p: Pair)
    requires Sorted(less, v) && AtMost(less, v, p.0)
    ensures Sorted(less, v + [p])
  {
  }

  lemma {:induction false} Insertion(less: Less, v: IntermediateVec, p: Pair) returns (v': IntermediateVec)
    requires StrictWeakOrder(less) && Sorted(less, v)
    ensures multiset(v') == multiset(v) + multiset{p} && Sorted(less, v')
  {
    hide StrictWeakOrder;
    if v == [] {
      v' := [p];
    } else {
      var n, last := |v| - 1, v[|v| - 1];
      assert v == v[..n] + [last];
      if less(p.0, last.0) {
        var w := Insertion(less, v[..n], p);
        v' := w + [last];
        NotAbove(less);
        forall i | 0 <= i < |w| ensures !less(last.0, w[i].0) {
          assert w[i] in multiset(w);
        }
        SortedAppend(less, w, last);
      } else {
        v' := v + [p];
        LastIsMax(less, v, p.0);
        SortedAppend(less, v, p);
      }
    }
  }

  /** What is below is not above. */
  lemma NotAbove(less: Less)
    requires StrictWeakOrder(less)
    ensures forall a, b :: less(a, b) ==> !less(b, a)
  {
    forall a, b | less(a, b) ensures !less(b, a) {
      assert less(a, b) && less(b, a) ==> less(a, a);
    }
  }
}
