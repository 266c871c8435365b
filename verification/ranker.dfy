/**
 * The answer shown to the user: the offers returned by the search, sorted
 * (stably) by price with a missing price counted as `float('inf')`, and cut
 * to the first three.
 */
module Ranker {
  import opened PyOrder
  import opened StableSort
  import opened Offers

  /** Python's slice `s[:n]`. */
  function Take<T>(s: seq<T>, n: nat): (r: seq<T>)
    ensures |r| == if |s| <= n then |s| else n
    ensures r == s[..|r|]
  {
    if |s| <= n then s else s[..n]
  }

  function TopThree(offers: seq<Offer>): seq<Offer>
  {
    Take(Sort(offers, PriceKey), 3)
  }

  /** At most three offers are shown, all drawn from the search results, and they are the
      head of every stable sort of the results by price (of which there is only one). */
  lemma TopThreeShape(offers: seq<Offer>)
    ensures |TopThree(offers)| == if |offers| < 3 then |offers| else 3
    ensures multiset(TopThree(offers)) <= multiset(offers)
    ensures forall t :: IsStableSortOf(t, offers, PriceKey) ==> TopThree(offers) <= t
  {
    var t := Sort(offers, PriceKey);
    var r := TopThree(offers);
    SortIsStableSort(offers, PriceKey);
    assert t == r + t[|r|..];
    forall u | IsStableSortOf(u, offers, PriceKey)
      ensures r <= u
    {
      StableSortUnique(u, t, offers, PriceKey);
    }
  }

  /** The offers shown are in ascending price order, priced ones first. */
  lemma TopThreeAscending(offers: seq<Offer>)
    ensures forall i, j :: 0 <= i < j < |TopThree(offers)| ==> PriceLeq(TopThree(offers)[i], TopThree(offers)[j])
  {
    var t := Sort(offers, PriceKey);
    var r := TopThree(offers);
    SortIsStableSort(offers, PriceKey);
    forall i, j | 0 <= i < j < |r|
      ensures PriceLeq(r[i], r[j])
    {
      assert r[i] == t[i] && r[j] == t[j];
      PriceKeyOrder(r[i], r[j]);
    }
  }

  /** What a multiset difference leaves of a sequence lies beyond its prefix. */
  lemma OutsidePrefix<T>(t: seq<T>, m: nat, x: T)
    requires m <= |t| && x in multiset(t) - multiset(t[..m])
    ensures exists j :: m <= j < |t| && t[j] == x
  {
    assert t == t[..m] + t[m..];
    assert multiset(t) == multiset(t[..m]) + multiset(t[m..]);
    assert x in t[m..];
    var j :| 0 <= j < |t[m..]| && t[m..][j] == x;
    assert t[m + j] == x;
  }

  /** No result left out is cheaper than any offer shown. */
  lemma TopThreeCheapest(offers: seq<Offer>)
    ensures forall x, i :: x in multiset(offers) - multiset(TopThree(offers)) && 0 <= i < |TopThree(offers)|
              ==> PriceLeq(TopThree(offers)[i], x)
  {
    var t := Sort(offers, PriceKey);
    var r := TopThree(offers);
    var m := |r|;
    SortIsStableSort(offers, PriceKey);
    forall x, i | x in multiset(offers) - multiset(r) && 0 <= i < m
      ensures PriceLeq(r[i], x)
    {
      OutsidePrefix(t, m, x);
      var j :| m <= j < |t| && t[j] == x;
      assert t[i] == r[i];
      assert !KeyLess(PriceKey(t[j]), PriceKey(t[i]));
      PriceKeyOrder(r[i], x);
    }
  }

  lemma {:induction false} PricedCountAppend(a: seq<Offer>, b: seq<Offer>)
    ensures PricedCount(a + b) == PricedCount(a) + PricedCount(b)
  {
    if a == [] {
      assert a + b == b;
    } else {
      assert (a + b)[1..] == a[1..] + b;
      PricedCountAppend(a[1..], b);
    }
  }

  /** The unpriced offers are exactly the ones whose key is `float('inf')`. */
  lemma {:induction false} PricedCountFilter(s: seq<Offer>)
    ensures PricedCount(s) + |KeyFilter(s, PriceKey, [Inf])| == |s|
  {
    if s != [] {
      PricedCountFilter(s[1..]);
    }
  }

  lemma {:induction false} UnpricedTail(t: seq<Offer>)
    requires forall i :: 0 <= i < |t| ==> Price(t[i]).None?
    ensures PricedCount(t) == 0
  {
    if t != [] {
      UnpricedTail(t[1..]);
    }
  }

  /** An offer without a price is shown only when fewer than three priced offers were found:
      it appears at position `i` only if at most `i` offers carry a price. */
  lemma UnpricedShownOnlyWhenFew(offers: seq<Offer>, i: nat)
    requires i < |TopThree(offers)| && Price(TopThree(offers)[i]).None?
    ensures PricedCount(offers) <= i
  {
    var t := Sort(offers, PriceKey);
    SortIsStableSort(offers, PriceKey);
    assert t[i] == TopThree(offers)[i];
    forall j | i <= j < |t|
      ensures Price(t[j]).None?
    {
      PriceKeyOrder(t[i], t[j]);
      if j > i {
        assert !KeyLess(PriceKey(t[j]), PriceKey(t[i]));
      }
    }
    assert t == t[..i] + t[i..];
    PricedCountAppend(t[..i], t[i..]);
    UnpricedTail(t[i..]);
    PricedCountFilter(t);
    PricedCountFilter(offers);
    assert KeyFilter(t, PriceKey, [Inf]) == KeyFilter(offers, PriceKey, [Inf]);
  }

  /** With three or more priced offers, all three shown have a price. */
  lemma ThreePricedShowPrices(offers: seq<Offer>)
    requires PricedCount(offers) >= 3
    ensures |TopThree(offers)| == 3
    ensures forall i :: 0 <= i < 3 ==> Price(TopThree(offers)[i]).Some?
  {
    TopThreeShape(offers);
    forall i | 0 <= i < 3
      ensures Price(TopThree(offers)[i]).Some?
    {
      if Price(TopThree(offers)[i]).None? {
        UnpricedShownOnlyWhenFew(offers, i);
      }
    }
  }
}

module RankerExamples {
  import opened Wrappers
  import opened PyOrder
  import opened StableSort
  import opened Offers
  import opened Ranker

  /** An offer of one product at pharmacy `shop`, with price `p`. */
  function At(shop: string, p: Option<real>): Offer
  {
    Offer("Paracetamol", Some(Producto("Paracetamol 500mg", "500mg", "Tableta", Some(Precios(p)))),
          Some(Comercio(shop, Locacion("Av. Lima 1", "Miraflores"))))
  }

  lemma SortSnoc(s: seq<Offer>, x: Offer)
    ensures Sort(s + [x], PriceKey) == Insert(x, Sort(s, PriceKey), PriceKey)
  {
    assert (s + [x])[..|s|] == s;
  }

  lemma SortFirstTwo(a: Offer, b: Offer)
    requires PriceKey(a) == [Inf] && PriceKey(b) == [Num(5.0)]
    ensures Sort([a, b], PriceKey) == [b, a]
  {
    SortSnoc([], a);
    SortSnoc([a], b);
    assert [a] + [b] == [a, b];
  }

  lemma SortFirstThree(a: Offer, b: Offer, c: Offer)
    requires PriceKey(a) == [Inf] && PriceKey(b) == [Num(5.0)] && PriceKey(c) == [Num(3.0)]
    ensures Sort([a, b, c], PriceKey) == [c, b, a]
  {
    SortFirstTwo(a, b);
    SortSnoc([a, b], c);
    assert [a, b] + [c] == [a, b, c];
  }

  lemma SortFirstFour(a: Offer, b: Offer, c: Offer, d: Offer)
    requires PriceKey(a) == [Inf] && PriceKey(b) == [Num(5.0)] && PriceKey(c) == [Num(3.0)]
    requires PriceKey(d) == [Num(8.0)]
    ensures Sort([a, b, c, d], PriceKey) == [c, b, d, a]
  {
    SortFirstThree(a, b, c);
    SortSnoc([a, b, c], d);
    assert [a, b, c] + [d] == [a, b, c, d];
    var t := [c, b, a];
    assert t[1..] == [b, a] && t[1..][1..] == [a] && t[1..][1..][1..] == [];
    assert KeyLess(PriceKey(d), PriceKey(a));
    assert !KeyLess(PriceKey(d), PriceKey(b)) && !KeyLess(PriceKey(d), PriceKey(c));
    assert InsertPos(d, [a], PriceKey) == 0;
    assert InsertPos(d, [b, a], PriceKey) == 1;
    assert InsertPos(d, t, PriceKey) == 2;
  }

  lemma SortAllFive(a: Offer, b: Offer, c: Offer, d: Offer, e: Offer)
    requires PriceKey(a) == [Inf] && PriceKey(b) == [Num(5.0)] && PriceKey(c) == [Num(3.0)]
    requires PriceKey(d) == [Num(8.0)] && PriceKey(e) == [Num(1.0)]
    ensures Sort([a, b, c, d, e], PriceKey) == [e, c, b, d, a]
  {
    SortFirstFour(a, b, c, d);
    SortSnoc([a, b, c, d], e);
    assert [a, b, c, d] + [e] == [a, b, c, d, e];
    assert InsertPos(e, [c, b, d, a], PriceKey) == 0;
  }

  /** Results priced [none, 5, 3, 8, 1] are shown as the offers at 1, 3 and 5. */
  lemma CheapestThree()
    ensures TopThree([At("A", None), At("B", Some(5.0)), At("C", Some(3.0)), At("D", Some(8.0)), At("E", Some(1.0))])
         == [At("E", Some(1.0)), At("C", Some(3.0)), At("B", Some(5.0))]
  {
    SortAllFive(At("A", None), At("B", Some(5.0)), At("C", Some(3.0)), At("D", Some(8.0)), At("E", Some(1.0)));
  }

  /** Two offers at the same price keep the order the database returned them in. */
  lemma TiesKeepOrder()
    ensures TopThree([At("A", Some(4.0)), At("B", Some(2.0)), At("C", Some(4.0))])
         == [At("B", Some(2.0)), At("A", Some(4.0)), At("C", Some(4.0))]
  {
    SortTies(At("A", Some(4.0)), At("B", Some(2.0)), At("C", Some(4.0)));
  }

  lemma SortTies(a: Offer, b: Offer, c: Offer)
    requires PriceKey(a) == [Num(4.0)] && PriceKey(b) == [Num(2.0)] && PriceKey(c) == [Num(4.0)]
    ensures Sort([a, b, c], PriceKey) == [b, a, c]
  {
    SortSnoc([], a);
    SortSnoc([a], b);
    assert [a] + [b] == [a, b];
    assert Sort([a, b], PriceKey) == [b, a];
    SortSnoc([a, b], c);
    assert [a, b] + [c] == [a, b, c];
    var t := [b, a];
    assert t[1..] == [a] && t[1..][1..] == [];
    assert !KeyLess([Num(4.0)], [Num(2.0)]) && !KeyLess([Num(4.0)], [Num(4.0)]);
    assert InsertPos(c, t, PriceKey) == 2;
    assert t[..2] + [c] + t[2..] == [b, a, c];
  }
}
