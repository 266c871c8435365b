/**
 * Python's `sorted(s, key=key)`: a stable ascending sort by a key function.
 *
 * Its specification is `IsStableSortOf`: the result is a permutation of the
 * input, ascending by key, and every group of elements with equal keys keeps
 * its input order. `StableSortUnique` shows that this specification admits
 * exactly one result, and `SortIsStableSort` that the insertion sort `Sort`
 * produces it, so `Sort` is the function `sorted` computes.
 */
module StableSort {
  import opened PyOrder

  /** Ascending by key: no element sorts strictly before an earlier one. */
  predicate Sorted<T>(r: seq<T>, key: T -> Key)
  {
    forall i, j :: 0 <= i < j < |r| ==> !KeyLess(key(r[j]), key(r[i]))
  }

  /** The elements of `s` whose key is `k`, in their order in `s`. */
  function KeyFilter<T>(s: seq<T>, key: T -> Key, k: Key): seq<T>
  {
    if s == [] then []
    else (if key(s[0]) == k then [s[0]] else []) + KeyFilter(s[1..], key, k)
  }

  /** Elements with equal keys appear in `r` in the same order as in `s`. */
  ghost predicate Stable<T>(r: seq<T>, s: seq<T>, key: T -> Key)
  {
    forall k :: KeyFilter(r, key, k) == KeyFilter(s, key, k)
  }

  ghost predicate IsStableSortOf<T>(r: seq<T>, s: seq<T>, key: T -> Key)
  {
    multiset(r) == multiset(s) && Sorted(r, key) && Stable(r, s, key)
  }

  /** Where `x` goes in `t`: after every element whose key is not above `x`'s. */
  function InsertPos<T>(x: T, t: seq<T>, key: T -> Key): (p: nat)
    ensures p <= |t|
    ensures forall i :: 0 <= i < p ==> !KeyLess(key(x), key(t[i]))
    ensures p < |t| ==> KeyLess(key(x), key(t[p]))
  {
    if t == [] then 0
    else if KeyLess(key(x), key(t[0])) then 0
    else 1 + InsertPos(x, t[1..], key)
  }

  function Insert<T>(x: T, t: seq<T>, key: T -> Key): seq<T>
  {
    var p := InsertPos(x, t, key);
    t[..p] + [x] + t[p..]
  }

  /** Insertion sort, taking the input elements from first to last. */
  function Sort<T>(s: seq<T>, key: T -> Key): seq<T>
  {
    if s == [] then []
    else Insert(s[|s| - 1], Sort(s[..|s| - 1], key), key)
  }

  lemma {:induction false} KeyFilterAppend<T>(a: seq<T>, b: seq<T>, key: T -> Key, k: Key)
    ensures KeyFilter(a + b, key, k) == KeyFilter(a, key, k) + KeyFilter(b, key, k)
  {
    if a != [] {
      var head := if key(a[0]) == k then [a[0]] else [];
      assert (a + b)[0] == a[0] && (a + b)[1..] == a[1..] + b;
      assert KeyFilter(a + b, key, k) == head + KeyFilter(a[1..] + b, key, k);
      KeyFilterAppend(a[1..], b, key, k);
      assert head + (KeyFilter(a[1..], key, k) + KeyFilter(b, key, k))
          == (head + KeyFilter(a[1..], key, k)) + KeyFilter(b, key, k);
    } else {
      assert a + b == b;
    }
  }

  lemma {:induction false} KeyFilterNone<T>(s: seq<T>, key: T -> Key, k: Key)
    requires forall i :: 0 <= i < |s| ==> key(s[i]) != k
    ensures KeyFilter(s, key, k) == []
  {
    if s != [] {
      KeyFilterNone(s[1..], key, k);
    }
  }

  /** The first element of `s` heads the filter of its own key. */
  lemma KeyFilterHead<T>(s: seq<T>, key: T -> Key)
    requires s != []
    ensures KeyFilter(s, key, key(s[0])) != [] && KeyFilter(s, key, key(s[0]))[0] == s[0]
  {
  }

  /** Every element of a key's filter is an element of `s` with that key. */
  lemma {:induction false} KeyFilterMembers<T>(s: seq<T>, key: T -> Key, k: Key)
    ensures forall y :: y in KeyFilter(s, key, k) ==> y in s && key(y) == k
  {
    if s != [] {
      KeyFilterMembers(s[1..], key, k);
    }
  }

  /** In an ascending sequence, everything from the insertion point on is strictly above `x`. */
  lemma InsertPosAbove<T>(x: T, t: seq<T>, key: T -> Key)
    requires Sorted(t, key)
    ensures forall j :: InsertPos(x, t, key) <= j < |t| ==> KeyLess(key(x), key(t[j]))
  {
    var p := InsertPos(x, t, key);
    forall j | p <= j < |t|
      ensures KeyLess(key(x), key(t[j]))
    {
      KeyLessTotal(key(t[p]), key(t[j]));
      if key(t[p]) != key(t[j]) && !KeyLess(key(t[j]), key(t[p])) {
        KeyLessTransitive(key(x), key(t[p]), key(t[j]));
      }
    }
  }

  lemma InsertSorted<T>(x: T, t: seq<T>, key: T -> Key)
    requires Sorted(t, key)
    ensures Sorted(Insert(x, t, key), key)
  {
    var p := InsertPos(x, t, key);
    var r := Insert(x, t, key);
    InsertPosAbove(x, t, key);
    forall i, j | 0 <= i < j < |r|
      ensures !KeyLess(key(r[j]), key(r[i]))
    {
      if i < p && j == p {
      } else if i == p {
        KeyLessAsymmetric(key(x), key(t[j - 1]));
      } else {
        var i' := if i < p then i else i - 1;
        var j' := if j < p then j else j - 1;
        assert r[i] == t[i'] && r[j] == t[j'];
      }
    }
  }

  lemma InsertFilter<T>(x: T, t: seq<T>, key: T -> Key, k: Key)
    requires Sorted(t, key)
    ensures KeyFilter(Insert(x, t, key), key, k) == KeyFilter(t, key, k) + KeyFilter([x], key, k)
  {
    var p := InsertPos(x, t, key);
    assert t == t[..p] + t[p..];
    KeyFilterAppend(t[..p], t[p..], key, k);
    KeyFilterAppend(t[..p] + [x], t[p..], key, k);
    KeyFilterAppend(t[..p], [x], key, k);
    if key(x) == k {
      InsertPosAbove(x, t, key);
      forall j | 0 <= j < |t[p..]|
        ensures key(t[p..][j]) != k
      {
        KeyLessIrreflexive(k);
      }
      KeyFilterNone(t[p..], key, k);
    } else {
      assert KeyFilter([x], key, k) == [];
    }
  }

  /** `sorted` returns the stable ascending permutation of its input. */
  lemma {:induction false} SortIsStableSort<T>(s: seq<T>, key: T -> Key)
    ensures |Sort(s, key)| == |s|
    ensures IsStableSortOf(Sort(s, key), s, key)
  {
    if s != [] {
      var init, x := s[..|s| - 1], s[|s| - 1];
      var t := Sort(init, key);
      SortIsStableSort(init, key);
      var p := InsertPos(x, t, key);
      assert t == t[..p] + t[p..];
      assert s == init + [x];
      InsertSorted(x, t, key);
      forall k
        ensures KeyFilter(Sort(s, key), key, k) == KeyFilter(s, key, k)
      {
        InsertFilter(x, t, key, k);
        KeyFilterAppend(init, [x], key, k);
      }
    }
  }

  /** Sorting an already ascending sequence changes nothing. */
  lemma {:induction false} SortSortedIdentity<T>(s: seq<T>, key: T -> Key)
    requires Sorted(s, key)
    ensures Sort(s, key) == s
  {
    if s != [] {
      var init, x := s[..|s| - 1], s[|s| - 1];
      assert Sorted(init, key);
      SortSortedIdentity(init, key);
      assert forall i :: 0 <= i < |init| ==> !KeyLess(key(x), key(init[i]));
      assert InsertPos(x, init, key) == |init|;
      assert s == init + [x];
    }
  }

  /** Two ascending sequences with the same elements per key, in the same order per key, are equal. */
  lemma {:induction false} SortedFiltersDetermine<T>(r1: seq<T>, r2: seq<T>, key: T -> Key)
    requires Sorted(r1, key) && Sorted(r2, key)
    requires forall k :: KeyFilter(r1, key, k) == KeyFilter(r2, key, k)
    ensures r1 == r2
  {
    if r1 == [] && r2 == [] {
    } else if r1 == [] {
      KeyFilterHead(r2, key);
      assert false;
    } else if r2 == [] {
      KeyFilterHead(r1, key);
      assert false;
    } else {
      var a, b := r1[0], r2[0];
      KeyFilterMembers(r1, key, key(b));
      KeyFilterMembers(r2, key, key(a));
      assert a in KeyFilter(r2, key, key(a));
      assert b in KeyFilter(r1, key, key(b));
      var i :| 0 <= i < |r2| && r2[i] == a;
      var j :| 0 <= j < |r1| && r1[j] == b;
      assert !KeyLess(key(a), key(b)) by {
        if i > 0 { assert !KeyLess(key(r2[i]), key(r2[0])); }
        else { KeyLessIrreflexive(key(a)); }
      }
      assert !KeyLess(key(b), key(a)) by {
        if j > 0 { assert !KeyLess(key(r1[j]), key(r1[0])); }
        else { KeyLessIrreflexive(key(b)); }
      }
      KeyLessTotal(key(a), key(b));
      assert KeyFilter(r1, key, key(a))[0] == a;
      assert KeyFilter(r2, key, key(a))[0] == b;
      assert a == b;
      forall k
        ensures KeyFilter(r1[1..], key, k) == KeyFilter(r2[1..], key, k)
      {
        var head := if key(a) == k then [a] else [];
        assert KeyFilter(r1, key, k) == head + KeyFilter(r1[1..], key, k);
        assert KeyFilter(r2, key, k) == head + KeyFilter(r2[1..], key, k);
        assert KeyFilter(r1[1..], key, k) == KeyFilter(r1, key, k)[|head|..];
        assert KeyFilter(r2[1..], key, k) == KeyFilter(r2, key, k)[|head|..];
      }
      SortedFiltersDetermine(r1[1..], r2[1..], key);
      assert r1 == [a] + r1[1..] && r2 == [b] + r2[1..];
    }
  }

  /** A stable sort has exactly one possible result. */
  lemma StableSortUnique<T>(r1: seq<T>, r2: seq<T>, s: seq<T>, key: T -> Key)
    requires IsStableSortOf(r1, s, key) && IsStableSortOf(r2, s, key)
    ensures r1 == r2
  {
    forall k
      ensures KeyFilter(r1, key, k) == KeyFilter(r2, key, k)
    {
      assert KeyFilter(r1, key, k) == KeyFilter(s, key, k);
    }
    SortedFiltersDetermine(r1, r2, key);
  }
}
