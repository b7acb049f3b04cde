/**
 * Sequence vocabulary for the model: order-preserving subsequences, and the enumeration
 * of a map's keys that a Go `for ... range` over a map visits in an unspecified order.
 */
module Sequences {

  /** `xs` is obtained from `ys` by deleting elements, keeping the order of the rest. */
  predicate IsSubsequence<T(==)>(xs: seq<T>, ys: seq<T>)
    decreases |ys|
  {
    if xs == [] then true
    else if ys == [] then false
    else (xs[|xs| - 1] == ys[|ys| - 1] && IsSubsequence(xs[..|xs| - 1], ys[..|ys| - 1]))
         || IsSubsequence(xs, ys[..|ys| - 1])
  }

  lemma SubsequenceSnoc<T>(xs: seq<T>, ys: seq<T>, y: T)
    requires IsSubsequence(xs, ys)
    ensures IsSubsequence(xs, ys + [y]) && IsSubsequence(xs + [y], ys + [y])
  {
    assert (ys + [y])[..|ys + [y]| - 1] == ys;
    assert (xs + [y])[..|xs + [y]| - 1] == xs;
  }

  /** Every sequence is a subsequence of itself. */
  lemma {:induction false} SubsequenceReflexive<T>(xs: seq<T>)
    ensures IsSubsequence(xs, xs)
    decreases |xs|
  {
    if xs != [] {
      SubsequenceReflexive(xs[..|xs| - 1]);
    }
  }

  /** Appending elements to the larger sequence keeps the relation. */
  lemma {:induction false} SubsequenceExtend<T>(xs: seq<T>, ys: seq<T>, zs: seq<T>)
    requires IsSubsequence(xs, ys)
    ensures IsSubsequence(xs, ys + zs)
    decreases |zs|
  {
    if zs == [] {
      assert ys + zs == ys;
    } else {
      var init := zs[..|zs| - 1];
      SubsequenceExtend(xs, ys, init);
      assert ys + zs == (ys + init) + [zs[|zs| - 1]];
      SubsequenceSnoc(xs, ys + init, zs[|zs| - 1]);
    }
  }

  /** Subsequences of consecutive parts concatenate to a subsequence of the whole. */
  lemma {:induction false} SubsequenceConcat<T>(a: seq<T>, b: seq<T>, c: seq<T>, d: seq<T>)
    requires IsSubsequence(a, b) && IsSubsequence(c, d)
    ensures IsSubsequence(a + c, b + d)
    decreases |d|
  {
    if c == [] {
      assert a + c == a;
      SubsequenceExtend(a, b, d);
    } else {
      var d' := d[..|d| - 1];
      assert (b + d)[..|b + d| - 1] == b + d';
      if c[|c| - 1] == d[|d| - 1] && IsSubsequence(c[..|c| - 1], d') {
        SubsequenceConcat(a, b, c[..|c| - 1], d');
        assert (a + c)[..|a + c| - 1] == a + c[..|c| - 1];
      } else {
        SubsequenceConcat(a, b, c, d');
      }
    }
  }

  /** The elements of a subsequence are elements of the sequence. */
  lemma {:induction false} SubsequenceMembers<T>(xs: seq<T>, ys: seq<T>)
    requires IsSubsequence(xs, ys)
    ensures forall x :: x in xs ==> x in ys
    decreases |ys|
  {
    if xs != [] {
      var ys' := ys[..|ys| - 1];
      if xs[|xs| - 1] == ys[|ys| - 1] && IsSubsequence(xs[..|xs| - 1], ys') {
        SubsequenceMembers(xs[..|xs| - 1], ys');
        assert xs == xs[..|xs| - 1] + [xs[|xs| - 1]];
      } else {
        SubsequenceMembers(xs, ys');
      }
    }
  }

  /** No element occurs twice. */
  predicate Distinct<T(==)>(xs: seq<T>)
  {
    forall i, j :: 0 <= i < j < |xs| ==> xs[i] != xs[j]
  }

  /** `order` lists every key of `keys` exactly once: one possible Go map iteration order. */
  ghost predicate IsEnumeration<K(!new)>(order: seq<K>, keys: set<K>)
  {
    Distinct(order) && forall k :: k in order <==> k in keys
  }

  /** The keys a map loop has visited so far, in the order visited. */
  ghost predicate PartialEnumeration<K(!new)>(order: seq<K>, visited: set<K>, keys: set<K>)
  {
    Distinct(order) && visited <= keys && forall k :: k in order <==> k in visited
  }

  /** Visiting one more key keeps the loop's bookkeeping right. */
  lemma EnumerationStep<K(!new)>(order: seq<K>, visited: set<K>, keys: set<K>, k: K)
    requires PartialEnumeration(order, visited, keys) && k in keys && k !in visited
    ensures PartialEnumeration(order + [k], visited + {k}, keys)
  {
    forall i, j | 0 <= i < j < |order + [k]| ensures (order + [k])[i] != (order + [k])[j] {
      if j == |order| {
        assert order[i] in order;
      }
    }
  }

  /** One iteration of a map loop: the picked key leaves the remaining keys and joins the order. */
  lemma EnumerationVisit<K(!new)>(order: seq<K>, visited: set<K>, remaining: set<K>, keys: set<K>, k: K)
    requires PartialEnumeration(order, visited, keys) && remaining == keys - visited && k in remaining
    ensures PartialEnumeration(order + [k], visited + {k}, keys)
    ensures remaining - {k} == keys - (visited + {k}) && |remaining - {k}| < |remaining|
  {
    EnumerationStep(order, visited, keys, k);
  }

  /** Once every key has been visited the order is an enumeration of the keys. */
  lemma EnumerationDone<K(!new)>(order: seq<K>, keys: set<K>)
    requires PartialEnumeration(order, keys, keys)
    ensures IsEnumeration(order, keys)
  {
  }

  /** A sequence without repeats has as many elements as the set of its elements. */
  lemma {:induction false} DistinctCard<T>(xs: seq<T>)
    requires Distinct(xs)
    ensures |set x | x in xs| == |xs|
    decreases |xs|
  {
    if xs != [] {
      var init, last := xs[..|xs| - 1], xs[|xs| - 1];
      DistinctCard(init);
      assert last !in init by {
        assert forall i :: 0 <= i < |init| ==> init[i] == xs[i] != xs[|xs| - 1];
      }
      assert (set x | x in xs) == (set x | x in init) + {last} by {
        assert xs == init + [last];
      }
    }
  }

  /** An enumeration visits as many keys as there are. */
  lemma EnumerationLength<K(!new)>(order: seq<K>, keys: set<K>)
    requires IsEnumeration(order, keys)
    ensures |order| == |keys|
  {
    DistinctCard(order);
    assert (set k | k in order) == keys;
  }

  /** The values a Go `for _, v := range m` loop visits when it goes through the keys in `order`. */
  function ValuesInOrder<K, V>(m: map<K, V>, order: seq<K>): (vs: seq<V>)
    requires forall k :: k in order ==> k in m
    ensures |vs| == |order|
    ensures forall i :: 0 <= i < |order| ==> vs[i] == m[order[i]]
    decreases |order|
  {
    if order == [] then [] else ValuesInOrder(m, order[..|order| - 1]) + [m[order[|order| - 1]]]
  }

  lemma ValuesInOrderSnoc<K, V>(m: map<K, V>, order: seq<K>, k: K)
    requires k in m && forall kk :: kk in order ==> kk in m
    ensures ValuesInOrder(m, order + [k]) == ValuesInOrder(m, order) + [m[k]]
  {
    assert (order + [k])[..|order|] == order;
  }

  /** A loop over every key visits exactly the values of the map. */
  lemma EnumerationValues<K(!new), V>(m: map<K, V>, order: seq<K>)
    requires IsEnumeration(order, m.Keys)
    ensures forall v :: v in ValuesInOrder(m, order) <==> v in m.Values
  {
    var vs := ValuesInOrder(m, order);
    forall v ensures v in vs <==> v in m.Values {
      if v in m.Values {
        var k :| k in m && m[k] == v;
        var i :| 0 <= i < |order| && order[i] == k;
        assert vs[i] == v;
      }
      if v in vs {
        var i :| 0 <= i < |vs| && vs[i] == v;
        assert m[order[i]] == v;
      }
    }
  }

  /** Concatenation of a sequence of sequences. */
  function Flatten<T>(xss: seq<seq<T>>): seq<T>
    decreases |xss|
  {
    if xss == [] then [] else Flatten(xss[..|xss| - 1]) + xss[|xss| - 1]
  }

  lemma {:induction false} FlattenConcat<T>(a: seq<seq<T>>, b: seq<seq<T>>)
    ensures Flatten(a + b) == Flatten(a) + Flatten(b)
    decreases |b|
  {
    if b == [] {
      assert a + b == a;
    } else {
      var b', last := b[..|b| - 1], b[|b| - 1];
      assert Flatten(a + b) == Flatten(a + b') + last by {
        assert (a + b)[..|a + b| - 1] == a + b';
      }
      FlattenConcat(a, b');
      assert Flatten(a) + Flatten(b') + last == Flatten(a) + (Flatten(b') + last);
    }
  }

  lemma ValuesInOrderConcat<K, V>(m: map<K, V>, o1: seq<K>, o2: seq<K>)
    requires forall k :: k in o1 + o2 ==> k in m
    ensures ValuesInOrder(m, o1 + o2) == ValuesInOrder(m, o1) + ValuesInOrder(m, o2)
  {
  }

  lemma EnumerationHead<K(!new)>(o: seq<K>, keys: set<K>)
    requires IsEnumeration(o, keys)
    ensures o == [] || o[0] in keys
  {
    if o != [] {
      assert o[0] in o;
    }
  }

  /** Deleting one key from an enumeration leaves an enumeration of the other keys. */
  lemma EnumerationRemove<K(!new)>(o: seq<K>, i: nat, keys: set<K>)
    requires IsEnumeration(o, keys) && i < |o|
    ensures IsEnumeration(o[..i] + o[i + 1..], keys - {o[i]})
  {
    var x, y := o[..i], o[i + 1..];
    forall j | 0 <= j < |x + y| ensures (x + y)[j] == o[if j < |x| then j else j + 1] {
    }
    forall kk | kk in keys - {o[i]} ensures kk in x + y {
      var p :| 0 <= p < |o| && o[p] == kk;
      assert (x + y)[if p < i then p else p - 1] == kk;
    }
  }

  /** The values of one key, taken out of the middle of the flattened sequence. */
  lemma FlattenValuesRemove<K, T>(m: map<K, seq<T>>, o: seq<K>, i: nat)
    requires i < |o| && forall kk :: kk in o ==> kk in m
    ensures multiset(Flatten(ValuesInOrder(m, o)))
         == multiset(Flatten(ValuesInOrder(m, o[..i] + o[i + 1..]))) + multiset(m[o[i]])
  {
    var x, k, y := o[..i], o[i], o[i + 1..];
    var vx, vk, vy := ValuesInOrder(m, x), ValuesInOrder(m, [k]), ValuesInOrder(m, y);
    assert ValuesInOrder(m, o) == vx + vk + vy by {
      assert o == x + [k] + y;
      ValuesInOrderConcat(m, x + [k], y);
      ValuesInOrderConcat(m, x, [k]);
    }
    assert ValuesInOrder(m, x + y) == vx + vy by {
      ValuesInOrderConcat(m, x, y);
    }
    assert Flatten(vx + vk + vy) == Flatten(vx) + Flatten(vk) + Flatten(vy) by {
      FlattenConcat(vx + vk, vy);
      FlattenConcat(vx, vk);
    }
    assert Flatten(vx + vy) == Flatten(vx) + Flatten(vy) by {
      FlattenConcat(vx, vy);
    }
    assert Flatten(vk) == m[k] by {
      assert vk == [m[k]];
      assert [m[k]][..0] == [];
    }
  }

  /**
   * Go's map order is unspecified, but the multiset of what the loop collects is not:
   * any two enumerations of the same keys flatten the values to equal multisets.
   */
  lemma {:induction false} EnumerationOrderIrrelevant<K(!new), T>(m: map<K, seq<T>>, o1: seq<K>, o2: seq<K>, keys: set<K>)
    requires IsEnumeration(o1, keys) && IsEnumeration(o2, keys) && keys <= m.Keys
    ensures multiset(Flatten(ValuesInOrder(m, o1))) == multiset(Flatten(ValuesInOrder(m, o2)))
    decreases |o1|
  {
    if o1 == [] {
      EnumerationHead(o2, keys);
    } else {
      var n := |o1| - 1;
      var k := o1[n];
      var rest1 := o1[..n];
      assert k in o2;
      var i :| 0 <= i < |o2| && o2[i] == k;
      var x, y := o2[..i], o2[i + 1..];
      EnumerationRemove(o1, n, keys);
      assert rest1 + o1[n + 1..] == rest1;
      EnumerationRemove(o2, i, keys);
      EnumerationOrderIrrelevant(m, rest1, x + y, keys - {k});
      FlattenValuesRemove(m, o1, n);
      FlattenValuesRemove(m, o2, i);
    }
  }

  function Singletons<K, V>(m: map<K, V>): (s: map<K, seq<V>>)
    ensures s.Keys == m.Keys && forall k :: k in m ==> s[k] == [m[k]]
  {
    map k | k in m :: [m[k]]
  }

  lemma {:induction false} FlattenSingletons<K, V>(m: map<K, V>, o: seq<K>)
    requires forall k :: k in o ==> k in m
    ensures Flatten(ValuesInOrder(Singletons(m), o)) == ValuesInOrder(m, o)
    decreases |o|
  {
    if o != [] {
      var o' := o[..|o| - 1];
      FlattenSingletons(m, o');
      var vs := ValuesInOrder(Singletons(m), o);
      assert vs[..|vs| - 1] == ValuesInOrder(Singletons(m), o');
    }
  }

  /** The multiset of values a map loop visits does not depend on the visiting order. */
  lemma ValuesOrderIrrelevant<K(!new), V>(m: map<K, V>, o1: seq<K>, o2: seq<K>, keys: set<K>)
    requires IsEnumeration(o1, keys) && IsEnumeration(o2, keys) && keys <= m.Keys
    ensures multiset(ValuesInOrder(m, o1)) == multiset(ValuesInOrder(m, o2))
  {
    EnumerationOrderIrrelevant(Singletons(m), o1, o2, keys);
    FlattenSingletons(m, o1);
    FlattenSingletons(m, o2);
  }
}
