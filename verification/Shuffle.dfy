/** Grouping sorted vectors by key: the work thread 0 does between the two barriers. */
module Shuffle {
  import opened Bags
  import opened MapReduceClient

  datatype Option<+T> = None | Some(value: T)

  /** All pairs of all vectors. */
  ghost function Bag(vecs: seq<IntermediateVec>): multiset<Pair> {
    Sum((v: IntermediateVec) => multiset(v), vecs)
  }

  predicate Grouped(less: Less, group: IntermediateVec) {
    group != [] && forall i, j :: 0 <= i < |group| && 0 <= j < |group| ==> Equivalent(less, group[i].0, group[j].0)
  }

  /** Non-empty groups of equivalent keys, keys strictly descending from group to group. */
  ghost predicate GroupsInOrder(less: Less, groups: seq<IntermediateVec>) {
    && (forall g :: 0 <= g < |groups| ==> Grouped(less, groups[g]))
    && (forall g, h :: 0 <= g < h < |groups| ==> less(groups[h][0].0, groups[g][0].0))
  }

  /** Non-empty groups of equivalent keys, keys strictly descending from group to group, no pair lost and none made
      up. */
  ghost predicate Covers(less: Less, vecs: seq<IntermediateVec>, groups: seq<IntermediateVec>) {
    GroupsInOrder(less, groups) && Bag(groups) == Bag(vecs)
  }

  /** The pairs of a vector with a key equivalent to k, from its back to its front. */
  function FromBack(less: Less, v: IntermediateVec, k: Key): IntermediateVec {
    if v == [] then []
    else
      var last := v[|v| - 1];
      (if Equivalent(less, last.0, k) then [last] else []) + FromBack(less, v[..|v| - 1], k)
  }

  /** Those of the first vector, then those of the second, and so on. */
  function Gathered(less: Less, vecs: seq<IntermediateVec>, k: Key): IntermediateVec {
    if vecs == [] then [] else Gathered(less, vecs[..|vecs| - 1], k) + FromBack(less, vecs[|vecs| - 1], k)
  }

  ghost predicate GroupsGathered(less: Less, vecs: seq<IntermediateVec>, groups: seq<IntermediateVec>) {
    forall g :: 0 <= g < |groups| ==> groups[g] != [] && groups[g] == Gathered(less, vecs, groups[g][0].0)
  }

  /** The promise of the shuffle: each key class in one group, keys strictly descending from group to group, and
      within a group the threads in their order, each thread's pairs from the back. */
  ghost predicate Shuffled(less: Less, vecs: seq<IntermediateVec>, groups: seq<IntermediateVec>) {
    Covers(less, vecs, groups) && GroupsGathered(less, vecs, groups)
  }

  /** Equivalent keys gather the same pairs. */
  lemma {:induction false} FromBackSame(less: Less, v: IntermediateVec, k: Key, k': Key)
    requires StrictWeakOrder(less) && Equivalent(less, k, k')
    ensures FromBack(less, v, k) == FromBack(less, v, k')
  {
    if v != [] {
      var x := v[|v| - 1].0;
      assert Equivalent(less, x, k) ==> Equivalent(less, x, k');
      assert Equivalent(less, x, k') && Equivalent(less, k', k) ==> Equivalent(less, x, k);
      FromBackSame(less, v[..|v| - 1], k, k');
    }
  }

  lemma {:induction false} GatheredSame(less: Less, vecs: seq<IntermediateVec>, k: Key, k': Key)
    requires StrictWeakOrder(less) && Equivalent(less, k, k')
    ensures Gathered(less, vecs, k) == Gathered(less, vecs, k')
  {
    if vecs != [] {
      FromBackSame(less, vecs[|vecs| - 1], k, k');
      GatheredSame(less, vecs[..|vecs| - 1], k, k');
    }
  }

  lemma {:induction false} FromBackBag(less: Less, v: IntermediateVec, k: Key, p: Pair)
    ensures multiset(FromBack(less, v, k))[p] == if Equivalent(less, p.0, k) then multiset(v)[p] else 0
  {
    if v != [] {
      FromBackBag(less, v[..|v| - 1], k, p);
      assert v == v[..|v| - 1] + [v[|v| - 1]];
    }
  }

  lemma GatheredEquivalent(less: Less, vecs: seq<IntermediateVec>, k: Key)
    ensures forall j :: 0 <= j < |Gathered(less, vecs, k)| ==> Equivalent(less, Gathered(less, vecs, k)[j].0, k)
  {
    hide Gathered;
    var group := Gathered(less, vecs, k);
    forall j | 0 <= j < |group| ensures Equivalent(less, group[j].0, k) {
      GatheredBag(less, vecs, k, group[j]);
      assert group[j] in multiset(group);
    }
  }

  /** Gathering takes the whole class and nothing else. */
  lemma {:induction false} GatheredBag(less: Less, vecs: seq<IntermediateVec>, k: Key, p: Pair)
    ensures multiset(Gathered(less, vecs, k))[p] == if Equivalent(less, p.0, k) then Bag(vecs)[p] else 0
  {
    if vecs != [] {
      GatheredBag(less, vecs[..|vecs| - 1], k, p);
      FromBackBag(less, vecs[|vecs| - 1], k, p);
    }
  }

  /** Nothing is gathered from pairs of other classes at the back. */
  lemma {:induction false} FromBackPrefix(less: Less, v: IntermediateVec, w: IntermediateVec, k: Key)
    requires w <= v && forall j :: |w| <= j < |v| ==> !Equivalent(less, v[j].0, k)
    ensures FromBack(less, v, k) == FromBack(less, w, k)
    decreases |v|
  {
    if |w| < |v| {
      FromBackPrefix(less, v[..|v| - 1], w, k);
    } else {
      assert v == w;
    }
  }

  lemma {:induction false} GatheredPrefix(less: Less, vecs: seq<IntermediateVec>, rest: seq<IntermediateVec>, k: Key)
    requires |rest| == |vecs| && forall i :: 0 <= i < |vecs| ==> rest[i] <= vecs[i]
    requires forall i, j :: 0 <= i < |vecs| && |rest[i]| <= j < |vecs[i]| ==> !Equivalent(less, vecs[i][j].0, k)
    ensures Gathered(less, vecs, k) == Gathered(less, rest, k)
  {
    if vecs != [] {
      var n := |vecs| - 1;
      FromBackPrefix(less, vecs[n], rest[n], k);
      GatheredPrefix(less, vecs[..n], rest[..n], k);
    }
  }

  lemma {:induction false} FromBackNone(less: Less, v: IntermediateVec, k: Key)
    requires AllBelow(less, v, k)
    ensures FromBack(less, v, k) == []
  {
    if v != [] {
      FromBackNone(less, v[..|v| - 1], k);
    }
  }

  /** Every key still to be grouped is below every group. */
  ghost predicate BelowGroups(less: Less, rest: seq<IntermediateVec>, groups: seq<IntermediateVec>) {
    forall i, j, g :: 0 <= i < |rest| && 0 <= j < |rest[i]| && 0 <= g < |groups| && groups[g] != [] ==>
      less(rest[i][j].0, groups[g][0].0)
  }

  /** Vector i has k at its back, and the vectors before it have lesser keys there. */
  predicate FirstWith(less: Less, vecs: seq<IntermediateVec>, i: nat, k: Key) {
    && i < |vecs| && vecs[i] != [] && vecs[i][|vecs[i]| - 1].0 == k
    && forall h :: 0 <= h < i && vecs[h] != [] ==> less(vecs[h][|vecs[h]| - 1].0, k)
  }

  /** The greatest key at the backs: the first of them, if some are equivalent. */
  method GetMaxKey(less: Less, vecs: seq<IntermediateVec>) returns (maxKey: Option<Key>)
    requires StrictWeakOrder(less) && forall i :: 0 <= i < |vecs| ==> Sorted(less, vecs[i])
    ensures maxKey.None? <==> forall i :: 0 <= i < |vecs| ==> vecs[i] == []
    ensures maxKey.Some? ==>
              && (forall i :: 0 <= i < |vecs| ==> AtMost(less, vecs[i], maxKey.value))
              && (exists i :: 0 <= i < |vecs| && FirstWith(less, vecs, i, maxKey.value))
  {
    maxKey := None;
    for n := 0 to |vecs|
      invariant maxKey.None? <==> forall i :: 0 <= i < n ==> vecs[i] == []
      invariant maxKey.Some? ==> forall i :: 0 <= i < n ==> AtMost(less, vecs[i], maxKey.value)
      invariant maxKey.Some? ==>
                  exists i :: 0 <= i < n && FirstWith(less, vecs, i, maxKey.value)
    {
      var v := vecs[n];
      if v != [] {
        var last := v[|v| - 1].0;
        LastIsMax(less, v, last);
        if maxKey.Some? {
          LastIsMax(less, v, maxKey.value);
        }
        if maxKey.None? || less(maxKey.value, last) {
          RaiseMax(less, vecs[..n], maxKey, last);
          assert FirstWith(less, vecs, n, last);
          maxKey := Some(last);
        }
      }
    }
  }

  lemma RaiseMax(less: Less, vecs: seq<IntermediateVec>, was: Option<Key>, now: Key)
    requires StrictWeakOrder(less)
    requires was.None? ==> forall i :: 0 <= i < |vecs| ==> vecs[i] == []
    requires was.Some? ==> less(was.value, now) && forall i :: 0 <= i < |vecs| ==> AtMost(less, vecs[i], was.value)
    ensures forall i :: 0 <= i < |vecs| ==> AllBelow(less, vecs[i], now) && AtMost(less, vecs[i], now)
  {
    forall i, j | 0 <= i < |vecs| && 0 <= j < |vecs[i]| ensures less(vecs[i][j].0, now) {
      assert vecs[i] != [];
      assert AtMost(less, vecs[i], was.value);
      LessThrough(less, vecs[i][j].0, was.value, now);
    }
    forall i, j | 0 <= i < |vecs| && 0 <= j < |vecs[i]| ensures !less(now, vecs[i][j].0) {
      assert vecs[i] != [];
      assert AtMost(less, vecs[i], was.value);
    }
  }

  /** Where the shuffle's outer loop stands: some groups made, the rest below all of them. */
  ghost predicate PartlyShuffled(less: Less, vecs: seq<IntermediateVec>,
                                 rest: seq<IntermediateVec>, groups: seq<IntermediateVec>) {
    && (forall i :: 0 <= i < |rest| ==> Sorted(less, rest[i]))
    && GroupsInOrder(less, groups)
    && BelowGroups(less, rest, groups)
    && Bag(groups) + Bag(rest) == Bag(vecs)
    && GroupsGathered(less, vecs, groups)
    && Remains(less, vecs, rest)
  }

  /** The rest is what is left at the fronts of the vectors, below everything taken off their backs. */
  ghost predicate Remains(less: Less, vecs: seq<IntermediateVec>, rest: seq<IntermediateVec>) {
    && |rest| == |vecs| && (forall i :: 0 <= i < |vecs| ==> rest[i] <= vecs[i])
    && forall i, j, m, l :: 0 <= i < |vecs| && |rest[i]| <= j < |vecs[i]| && 0 <= m < |rest| && 0 <= l < |rest[m]| ==>
         less(rest[m][l].0, vecs[i][j].0)
  }

  ghost predicate IsMaxKey(less: Less, rest: seq<IntermediateVec>, k: Key) {
    && (forall i :: 0 <= i < |rest| ==> AtMost(less, rest[i], k))
    && (exists i :: 0 <= i < |rest| && rest[i] != [] && rest[i][|rest[i]| - 1].0 == k)
  }

  method ShuffleVecs(less: Less, vecs: seq<IntermediateVec>) returns (groups: seq<IntermediateVec>, moved: nat)
    requires StrictWeakOrder(less) && forall i :: 0 <= i < |vecs| ==> Sorted(less, vecs[i])
    ensures Shuffled(less, vecs, groups)
    ensures moved == |Bag(vecs)|
  {
    var interVecs := vecs;
    groups, moved := [], 0;
    var currMaxKey := GetMaxKey(less, interVecs);
    while currMaxKey.Some?
      invariant PartlyShuffled(less, vecs, interVecs, groups)
      invariant moved + |Bag(interVecs)| == |Bag(vecs)|
      invariant currMaxKey.None? ==> forall i :: 0 <= i < |interVecs| ==> interVecs[i] == []
      invariant currMaxKey.Some? ==> IsMaxKey(less, interVecs, currMaxKey.value)
      decreases |Bag(interVecs)|
    {
      ghost var before := interVecs;
      var newVec: IntermediateVec;
      newVec, interVecs, moved := TakeKey(less, interVecs, currMaxKey.value, moved);
      NewGroup(less, vecs, before, interVecs, groups, newVec, currMaxKey.value);
      groups := groups + [newVec];
      currMaxKey := GetMaxKey(less, interVecs);
    }
    SumEmpty((v: IntermediateVec) => multiset(v), interVecs);
  }

  /** The innermost loop: pop the pairs with a key equivalent to k off the back of one vector. */
  method PopKey(less: Less, v0: IntermediateVec, k: Key, newVec0: IntermediateVec, moved0: nat)
    returns (newVec: IntermediateVec, v: IntermediateVec, moved: nat)
    requires StrictWeakOrder(less) && Sorted(less, v0) && AtMost(less, v0, k)
    ensures v <= v0 && AllBelow(less, v, k)
    ensures forall j :: |v| <= j < |v0| ==> Equivalent(less, v0[j].0, k)
    ensures newVec == newVec0 + FromBack(less, v0, k)
    ensures multiset(newVec) + multiset(v) == multiset(newVec0) + multiset(v0)
    ensures moved == moved0 + |newVec| - |newVec0|
  {
    hide StrictWeakOrder, FromBack;
    newVec, v, moved := newVec0, v0, moved0;
    while v != [] && Equivalent(less, v[|v| - 1].0, k)
      invariant v <= v0 && forall j :: |v| <= j < |v0| ==> Equivalent(less, v0[j].0, k)
      invariant newVec + FromBack(less, v, k) == newVec0 + FromBack(less, v0, k)
      invariant multiset(newVec) + multiset(v) == multiset(newVec0) + multiset(v0)
      invariant moved == moved0 + |newVec| - |newVec0|
      decreases |v|
    {
      var back := v[|v| - 1];
      FromBackNext(less, v, k);
      assert v == v[..|v| - 1] + [back];
      newVec := newVec + [back];
      v := v[..|v| - 1];
      moved := moved + 1;
    }
    if v != [] {
      LastIsMax(less, v, k);
    }
    FromBackNone(less, v, k);
  }

  /** The inner two loops: pop every pair whose key is equivalent to k off the backs of the vectors. */
  method TakeKey(less: Less, vecs: seq<IntermediateVec>, k: Key, moved0: nat)
    returns (newVec: IntermediateVec, interVecs: seq<IntermediateVec>, moved: nat)
    requires StrictWeakOrder(less)
    requires forall i :: 0 <= i < |vecs| ==> Sorted(less, vecs[i]) && AtMost(less, vecs[i], k)
    ensures |interVecs| == |vecs|
    ensures forall i :: 0 <= i < |vecs| ==> interVecs[i] <= vecs[i] && AllBelow(less, interVecs[i], k)
    ensures forall i, j :: 0 <= i < |vecs| && |interVecs[i]| <= j < |vecs[i]| ==> Equivalent(less, vecs[i][j].0, k)
    ensures multiset(newVec) + Bag(interVecs) == Bag(vecs) && newVec == Gathered(less, vecs, k)
    ensures moved == moved0 + |newVec|
  {
    hide Bag, StrictWeakOrder, FromBack, Gathered, AllBelow, AtMost, Sorted, Equivalent;
    newVec, interVecs, moved := [], vecs, moved0;
    GatheredNone(less, vecs, k);
    for n := 0 to |vecs|
      invariant |interVecs| == |vecs|
      invariant forall i :: 0 <= i < n ==> interVecs[i] <= vecs[i] && AllBelow(less, interVecs[i], k)
      invariant forall i, j :: 0 <= i < n && |interVecs[i]| <= j < |vecs[i]| ==> Equivalent(less, vecs[i][j].0, k)
      invariant forall i :: n <= i < |vecs| ==> interVecs[i] == vecs[i]
      invariant multiset(newVec) + Bag(interVecs) == Bag(vecs) && newVec == Gathered(less, vecs[..n], k)
      invariant moved == moved0 + |newVec|
    {
      ghost var taken := newVec;
      var v;
      newVec, v, moved := PopKey(less, interVecs[n], k, newVec, moved);
      PopBack(interVecs, n, v, taken, newVec);
      interVecs := interVecs[n := v];
      GatheredNext(less, vecs, n, k);
    }
    assert vecs[..|vecs|] == vecs;
  }

  lemma PopBack(vecs: seq<IntermediateVec>, n: nat, v: IntermediateVec, taken: IntermediateVec,
                newVec: IntermediateVec)
    requires n < |vecs| && multiset(newVec) + multiset(v) == multiset(taken) + multiset(vecs[n])
    ensures multiset(newVec) + Bag(vecs[n := v]) == multiset(taken) + Bag(vecs)
  {
    SumUpdate((v: IntermediateVec) => multiset(v), vecs, n, v);
    Balance(multiset(newVec), Bag(vecs[n := v]), multiset(taken), Bag(vecs), multiset(v), multiset(vecs[n]));
  }

  lemma Balance<T>(now: multiset<T>, bag': multiset<T>, was: multiset<T>, bag: multiset<T>, v': multiset<T>,
                   v: multiset<T>)
    requires now + v' == was + v && bag' + v == bag + v'
    ensures now + bag' == was + bag
  {
    assert (now + bag') + (v + v') == (now + v') + (bag' + v);
    assert (was + bag) + (v + v') == (was + v) + (bag + v');
    Cancel(now + bag', was + bag, v + v');
  }

  lemma GatheredNone(less: Less, vecs: seq<IntermediateVec>, k: Key)
    ensures Gathered(less, vecs[..0], k) == []
  {
  }

  lemma GatheredNext(less: Less, vecs: seq<IntermediateVec>, n: nat, k: Key)
    requires n < |vecs|
    ensures Gathered(less, vecs[..n + 1], k) == Gathered(less, vecs[..n], k) + FromBack(less, vecs[n], k)
  {
    assert vecs[..n + 1][..n] == vecs[..n];
  }

  lemma FromBackNext(less: Less, v: IntermediateVec, k: Key)
    requires v != [] && Equivalent(less, v[|v| - 1].0, k)
    ensures FromBack(less, v, k) == [v[|v| - 1]] + FromBack(less, v[..|v| - 1], k)
  {
  }

  /** What TakeKey took is a group of its own, below the groups before and above what is left. */
  lemma NewGroup(less: Less, vecs: seq<IntermediateVec>, before: seq<IntermediateVec>, after: seq<IntermediateVec>,
                 groups: seq<IntermediateVec>, newVec: IntermediateVec, k: Key)
    requires StrictWeakOrder(less) && PartlyShuffled(less, vecs, before, groups) && IsMaxKey(less, before, k)
    requires |after| == |before|
    requires forall i :: 0 <= i < |before| ==> after[i] <= before[i] && AllBelow(less, after[i], k)
    requires forall i, j :: 0 <= i < |before| && |after[i]| <= j < |before[i]| ==> Equivalent(less, before[i][j].0, k)
    requires multiset(newVec) + Bag(after) == Bag(before) && newVec == Gathered(less, before, k)
    ensures PartlyShuffled(less, vecs, after, groups + [newVec])
    ensures |Bag(after)| == |Bag(before)| - |newVec| < |Bag(before)|
  {
    hide Bag, Grouped, AllBelow, Remains, GroupsGathered, Gathered;
    GatheredEquivalent(less, before, k);
    StillRemains(less, vecs, before, after, k);
    GatheredGroup(less, vecs, before, groups, newVec, k);
    SomethingTaken(less, before, after, newVec, k);
    assert |multiset(newVec)| == |newVec|;
    GroupOfKey(less, newVec, k);
    NewGroupBelow(less, before, groups, newVec, k);
    RestBelow(less, before, after, groups, newVec, k);
    BagWith(vecs, before, after, groups, newVec);
    forall m | 0 <= m < |after| ensures Sorted(less, after[m]) {
      assert after[m] <= before[m];
    }
  }

  lemma StillRemains(less: Less, vecs: seq<IntermediateVec>, before: seq<IntermediateVec>, after: seq<IntermediateVec>,
                     k: Key)
    requires StrictWeakOrder(less) && Remains(less, vecs, before) && |after| == |before|
    requires forall i :: 0 <= i < |before| ==> after[i] <= before[i] && AllBelow(less, after[i], k)
    requires forall i, j :: 0 <= i < |before| && |after[i]| <= j < |before[i]| ==> Equivalent(less, before[i][j].0, k)
    ensures Remains(less, vecs, after)
  {
    hide StrictWeakOrder;
    forall i, j, m, l | 0 <= i < |vecs| && |after[i]| <= j < |vecs[i]| && 0 <= m < |after| && 0 <= l < |after[m]|
      ensures less(after[m][l].0, vecs[i][j].0)
    {
      assert after[m] <= before[m] && after[m][l] == before[m][l];
      assert AllBelow(less, after[m], k);
      if j < |before[i]| {
        assert before[i] <= vecs[i] && vecs[i][j] == before[i][j];
        assert Equivalent(less, before[i][j].0, k);
        LessEquivalent(less, after[m][l].0, k, vecs[i][j].0);
      }
    }
  }

  /** The pairs of the greatest key left are those of all the vectors. */
  lemma GatheredGroup(less: Less, vecs: seq<IntermediateVec>, before: seq<IntermediateVec>,
                      groups: seq<IntermediateVec>, newVec: IntermediateVec, k: Key)
    requires StrictWeakOrder(less) && Remains(less, vecs, before) && IsMaxKey(less, before, k)
    requires GroupsGathered(less, vecs, groups) && newVec == Gathered(less, before, k)
    requires forall j :: 0 <= j < |newVec| ==> Equivalent(less, newVec[j].0, k)
    ensures newVec != [] ==> GroupsGathered(less, vecs, groups + [newVec])
  {
    var m :| 0 <= m < |before| && before[m] != [] && before[m][|before[m]| - 1].0 == k;
    GatheredPrefix(less, vecs, before, k);
    if newVec != [] {
      GatheredSame(less, vecs, newVec[0].0, k);
    }
  }

  lemma NewGroupBelow(less: Less, before: seq<IntermediateVec>, groups: seq<IntermediateVec>,
                      newVec: IntermediateVec, k: Key)
    requires StrictWeakOrder(less) && IsMaxKey(less, before, k) && BelowGroups(less, before, groups)
    requires GroupsInOrder(less, groups) && Grouped(less, newVec) && Equivalent(less, newVec[0].0, k)
    ensures GroupsInOrder(less, groups + [newVec])
  {
    var i :| 0 <= i < |before| && before[i] != [] && before[i][|before[i]| - 1].0 == k;
    forall g | 0 <= g < |groups| ensures less(newVec[0].0, groups[g][0].0) {
      assert less(before[i][|before[i]| - 1].0, groups[g][0].0);
      LessThrough(less, newVec[0].0, k, groups[g][0].0);
    }
  }

  lemma BagWith(vecs: seq<IntermediateVec>, before: seq<IntermediateVec>, after: seq<IntermediateVec>,
                groups: seq<IntermediateVec>, newVec: IntermediateVec)
    requires Bag(groups) + Bag(before) == Bag(vecs) && multiset(newVec) + Bag(after) == Bag(before)
    ensures Bag(groups + [newVec]) + Bag(after) == Bag(vecs)
  {
    SumAppend((v: IntermediateVec) => multiset(v), groups, newVec);
    assert Bag(groups + [newVec]) + Bag(after) == Bag(groups) + (multiset(newVec) + Bag(after));
  }

  /** The greatest key is there to be taken, so the loop makes progress. */
  lemma SomethingTaken(less: Less, before: seq<IntermediateVec>, after: seq<IntermediateVec>,
                       newVec: IntermediateVec, k: Key)
    requires StrictWeakOrder(less) && IsMaxKey(less, before, k) && |after| == |before|
    requires forall i :: 0 <= i < |before| ==> after[i] <= before[i] && AllBelow(less, after[i], k)
    requires multiset(newVec) + Bag(after) == Bag(before)
    ensures newVec != []
  {
    if newVec == [] {
      SameBagSamePrefixes(before, after);
      assert false;
    }
  }

  lemma GroupOfKey(less: Less, group: IntermediateVec, k: Key)
    requires StrictWeakOrder(less) && group != []
    requires forall j :: 0 <= j < |group| ==> Equivalent(less, group[j].0, k)
    ensures Grouped(less, group)
  {
    forall i, j | 0 <= i < |group| && 0 <= j < |group| ensures Equivalent(less, group[i].0, group[j].0) {
      assert Equivalent(less, group[i].0, k) && Equivalent(less, k, group[j].0);
    }
  }

  lemma RestBelow(less: Less, before: seq<IntermediateVec>, after: seq<IntermediateVec>,
                  groups: seq<IntermediateVec>, newVec: IntermediateVec, k: Key)
    requires StrictWeakOrder(less) && BelowGroups(less, before, groups) && newVec != []
    requires |after| == |before|
    requires forall i :: 0 <= i < |before| ==> after[i] <= before[i] && AllBelow(less, after[i], k)
    requires Equivalent(less, newVec[0].0, k)
    ensures BelowGroups(less, after, groups + [newVec])
  {
    var groups': seq<IntermediateVec> := groups + [newVec];
    forall m, j, g | 0 <= m < |after| && 0 <= j < |after[m]| && 0 <= g < |groups'| && groups'[g] != []
      ensures less(after[m][j].0, groups'[g][0].0)
    {
      assert AllBelow(less, after[m], k) && after[m][j] == before[m][j];
      if g == |groups| {
        LessEquivalent(less, after[m][j].0, k, newVec[0].0);
      }
    }
  }

  /** Prefixes with the same pairs are the whole vectors. */
  lemma {:induction false} SameBagSamePrefixes(before: seq<IntermediateVec>, after: seq<IntermediateVec>)
    requires |after| == |before| && forall i :: 0 <= i < |before| ==> after[i] <= before[i]
    requires |Bag(after)| >= |Bag(before)|
    ensures after == before
  {
    var f, g := (v: IntermediateVec) => multiset(v), (v: IntermediateVec) => |v|;
    SumSize(f, g, before);
    SumSize(f, g, after);
    PrefixSizes(before, after);
  }

  lemma {:induction false} PrefixSizes(before: seq<IntermediateVec>, after: seq<IntermediateVec>)
    requires |after| == |before| && forall i :: 0 <= i < |before| ==> after[i] <= before[i]
    ensures Total((v: IntermediateVec) => |v|, after) <= Total((v: IntermediateVec) => |v|, before)
    ensures Total((v: IntermediateVec) => |v|, after) == Total((v: IntermediateVec) => |v|, before) ==> after == before
  {
    if before != [] {
      var n := |before| - 1;
      PrefixSizes(before[..n], after[..n]);
      assert before == before[..n] + [before[n]] && after == after[..n] + [after[n]];
      assert |after[n]| == |before[n]| ==> after[n] == before[n];
    }
  }

  // ---------- What the promise means for reduce ----------

  /** Keys of different groups are not equivalent. */
  lemma GroupsDiffer(less: Less, vecs: seq<IntermediateVec>, groups: seq<IntermediateVec>,
                     g: nat, h: nat, i: nat, j: nat)
    requires StrictWeakOrder(less) && Covers(less, vecs, groups)
    requires g < |groups| && h < |groups| && i < |groups[g]| && j < |groups[h]|
    ensures Equivalent(less, groups[g][i].0, groups[h][j].0) <==> g == h
  {
    if g < h {
      LessEquivalent(less, groups[h][0].0, groups[g][0].0, groups[g][i].0);
      LessThrough(less, groups[h][j].0, groups[h][0].0, groups[g][i].0);
    } else if h < g {
      LessEquivalent(less, groups[g][0].0, groups[h][0].0, groups[h][j].0);
      LessThrough(less, groups[g][i].0, groups[g][0].0, groups[h][j].0);
    }
  }

  /** Each group is one whole key class: of every pair with an equivalent key, as many as were emitted. */
  lemma GroupIsWholeClass(less: Less, vecs: seq<IntermediateVec>, groups: seq<IntermediateVec>, g: nat, p: Pair)
    requires StrictWeakOrder(less) && Covers(less, vecs, groups) && g < |groups|
    ensures multiset(groups[g])[p] == if Equivalent(less, groups[g][0].0, p.0) then Bag(vecs)[p] else 0
  {
    var f := (v: IntermediateVec) => multiset(v);
    if Equivalent(less, groups[g][0].0, p.0) {
      forall h | 0 <= h < |groups| && h != g ensures p !in groups[h] {
        if p in groups[h] {
          var j :| 0 <= j < |groups[h]| && groups[h][j] == p;
          GroupsDiffer(less, vecs, groups, g, h, 0, j);
        }
      }
      OnlyHere(groups, g, p);
    } else {
      assert forall j :: 0 <= j < |groups[g]| ==> Equivalent(less, groups[g][0].0, groups[g][j].0);
      assert p !in groups[g];
    }
  }

  lemma {:induction false} OnlyHere(groups: seq<IntermediateVec>, g: nat, p: Pair)
    requires g < |groups| && forall h :: 0 <= h < |groups| && h != g ==> p !in groups[h]
    ensures Bag(groups)[p] == multiset(groups[g])[p]
  {
    var n := |groups| - 1;
    if g < n {
      OnlyHere(groups[..n], g, p);
    } else {
      Nowhere(groups[..n], p);
    }
  }

  lemma {:induction false} Nowhere(groups: seq<IntermediateVec>, p: Pair)
    requires forall h :: 0 <= h < |groups| ==> p !in groups[h]
    ensures Bag(groups)[p] == 0
  {
    if groups != [] {
      Nowhere(groups[..|groups| - 1], p);
    }
  }

  /** Every key class emitted has its group. */
  lemma ClassHasGroup(less: Less, vecs: seq<IntermediateVec>, groups: seq<IntermediateVec>, p: Pair)
    requires StrictWeakOrder(less) && Covers(less, vecs, groups) && p in Bag(vecs)
    ensures exists g :: 0 <= g < |groups| && p in groups[g]
  {
    if forall g :: 0 <= g < |groups| ==> p !in groups[g] {
      Nowhere(groups, p);
    }
  }

  // ---------- The promise can be kept ----------

  lemma ShuffleExists(less: Less, vecs: seq<IntermediateVec>) returns (groups: seq<IntermediateVec>)
    requires StrictWeakOrder(less)
    ensures Shuffled(less, vecs, groups)
  {
    var all := Joined(vecs);
    var v := SortExists(less, all);
    var covering: seq<IntermediateVec> := GroupsOf(less, v);
    groups := seq(|covering|, g requires 0 <= g < |covering| => Gathered(less, vecs, covering[g][0].0));
    hide StrictWeakOrder, Bag, Gathered, GroupsInOrder;
    forall g: nat | g < |covering| ensures Regathered(less, vecs, covering[g], groups[g]) {
      Regather(less, vecs, covering, g);
    }
    RegatheredCover(less, vecs, covering, groups);
  }

  /** The group in the order in which it is gathered. */
  ghost predicate Regathered(less: Less, vecs: seq<IntermediateVec>, group: IntermediateVec, group': IntermediateVec) {
    && multiset(group') == multiset(group) && group != [] && group' != []
    && Equivalent(less, group'[0].0, group[0].0) && group' == Gathered(less, vecs, group'[0].0)
    && Grouped(less, group')
  }

  lemma Regather(less: Less, vecs: seq<IntermediateVec>, groups: seq<IntermediateVec>, g: nat)
    requires StrictWeakOrder(less) && Covers(less, vecs, groups) && g < |groups|
    ensures groups[g] != [] && Regathered(less, vecs, groups[g], Gathered(less, vecs, groups[g][0].0))
  {
    assert Grouped(less, groups[g]);
    var k := groups[g][0].0;
    var group := Gathered(less, vecs, k);
    forall p ensures multiset(group)[p] == multiset(groups[g])[p] {
      GatheredBag(less, vecs, k, p);
      GroupIsWholeClass(less, vecs, groups, g, p);
    }
    assert multiset(group) == multiset(groups[g]);
    assert |multiset(group)| == |group| && |multiset(groups[g])| == |groups[g]|;
    forall j | 0 <= j < |group| ensures Equivalent(less, group[j].0, k) {
      assert group[j] in multiset(group);
      assert group[j] in groups[g];
    }
    GroupOfKey(less, group, k);
    GatheredSame(less, vecs, group[0].0, k);
  }

  lemma RegatheredCover(less: Less, vecs: seq<IntermediateVec>, covering: seq<IntermediateVec>,
                        groups: seq<IntermediateVec>)
    requires StrictWeakOrder(less) && Covers(less, vecs, covering) && |groups| == |covering|
    requires forall g :: 0 <= g < |covering| ==> Regathered(less, vecs, covering[g], groups[g])
    ensures Shuffled(less, vecs, groups)
  {
    SumSame((v: IntermediateVec) => multiset(v), groups, covering);
    forall g, h | 0 <= g < h < |groups| ensures less(groups[h][0].0, groups[g][0].0) {
      assert Regathered(less, vecs, covering[g], groups[g]) && Regathered(less, vecs, covering[h], groups[h]);
      LessEquivalent(less, covering[h][0].0, covering[g][0].0, groups[g][0].0);
      LessThrough(less, groups[h][0].0, covering[h][0].0, groups[g][0].0);
    }
    assert GroupsGathered(less, vecs, groups);
  }

  lemma {:induction false} Joined(vecs: seq<IntermediateVec>) returns (all: IntermediateVec)
    ensures multiset(all) == Bag(vecs)
  {
    if vecs == [] {
      all := [];
    } else {
      var front := Joined(vecs[..|vecs| - 1]);
      all := front + vecs[|vecs| - 1];
    }
  }

  /** The groups of one sorted vector. */
  lemma {:induction false} GroupsOf(less: Less, v: IntermediateVec) returns (groups: seq<IntermediateVec>)
    requires StrictWeakOrder(less) && Sorted(less, v)
    ensures GroupsInOrder(less, groups)
    ensures Bag(groups) == multiset(v)
  {
    if v == [] {
      groups := [];
    } else {
      var rest: seq<IntermediateVec> := GroupsOf(less, v[1..]);
      assert v == [v[0]] + v[1..];
      forall g: int | 0 <= g < |rest| ensures !less(rest[g][0].0, v[0].0) {
        SumContains((w: IntermediateVec) => multiset(w), rest, g);
        assert rest[g][0] in multiset(rest[g]);
        assert rest[g][0] in multiset(v[1..]);
      }
      groups := AddSmallest(less, rest, v[0]);
    }
  }

  lemma AddToBag(rest: seq<IntermediateVec>, n: nat, p: Pair)
    requires n < |rest|
    ensures Bag(rest[n := rest[n] + [p]]) == Bag(rest) + multiset{p}
  {
    var last := rest[n] + [p];
    SumUpdate((w: IntermediateVec) => multiset(w), rest, n, last);
    assert multiset(last) == multiset(rest[n]) + multiset{p};
    Cancel(Bag(rest[n := last]), Bag(rest) + multiset{p}, multiset(rest[n]));
  }

  lemma AddSmallest(less: Less, rest: seq<IntermediateVec>, p: Pair) returns (groups: seq<IntermediateVec>)
    requires StrictWeakOrder(less)
    requires GroupsInOrder(less, rest) && forall g :: 0 <= g < |rest| ==> !less(rest[g][0].0, p.0)
    ensures GroupsInOrder(less, groups)
    ensures Bag(groups) == Bag(rest) + multiset{p}
  {
    var n := |rest| - 1;
    if rest != [] && Equivalent(less, rest[n][0].0, p.0) {
      var last := rest[n] + [p];
      GroupOfKey(less, last, p.0);
      groups := rest[n := last];
      AddToBag(rest, n, p);
    } else {
      groups := rest + [[p]];
      SumAppend((w: IntermediateVec) => multiset(w), rest, [p]);
      assert rest != [] ==> less(p.0, rest[n][0].0);
    }
  }
}
