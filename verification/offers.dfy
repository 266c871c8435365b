/**
 * One document of the `health.drugs` collection: a drug offered by a
 * pharmacy, with its price. Sub-documents that a document may lack are
 * `Option`s, so that the nested dictionary lookups of the ranker and the
 * dotted paths of the filter query can meet a missing level.
 */
module Offers {
  import opened Wrappers
  import opened PyOrder

  /** `precio2` is `None` when the key is absent from `precios`. */
  datatype Precios = Precios(precio2: Option<real>)

  datatype Producto = Producto(
    nombreProducto: string,
    concent: string,
    nombreFormaFarmaceutica: string,
    precios: Option<Precios>)

  datatype Locacion = Locacion(direccion: string, distrito: string)

  datatype Comercio = Comercio(nombreComercial: string, locacion: Locacion)

  datatype Offer = Offer(
    searchTerm: string,
    producto: Option<Producto>,
    comercio: Option<Comercio>)

  /** `producto -> precios -> precio2`, each level read with `get` and an empty default. */
  function Price(o: Offer): (r: Option<real>)
    ensures r.Some? <==> o.producto.Some? && o.producto.value.precios.Some?
                         && o.producto.value.precios.value.precio2.Some?
    ensures r.Some? ==> r.value == o.producto.value.precios.value.precio2.value
  {
    match o.producto
    case None => None
    case Some(p) =>
      match p.precios
      case None => None
      case Some(ps) => ps.precio2
  }

  /** The ranking key: the price, or `float('inf')` when any level is missing. */
  function PriceKey(o: Offer): Key
  {
    match Price(o)
    case Some(p) => [Num(p)]
    case None => [Inf]
  }

  /** `a` may precede `b` in the ranking: a priced offer precedes every unpriced one,
      and two priced offers are compared by price. */
  predicate PriceLeq(a: Offer, b: Offer)
  {
    match (Price(a), Price(b))
    case (Some(p), Some(q)) => p <= q
    case (_, None) => true
    case (None, Some(_)) => false
  }

  /** The ranking key orders offers exactly as `PriceLeq` describes. */
  lemma PriceKeyOrder(a: Offer, b: Offer)
    ensures !KeyLess(PriceKey(b), PriceKey(a)) <==> PriceLeq(a, b)
  {
    assert KeyLess(PriceKey(b), PriceKey(a)) <==> AtomLess(PriceKey(b)[0], PriceKey(a)[0]) by {
      assert PriceKey(a)[1..] == [] && PriceKey(b)[1..] == [];
    }
  }

  /** The number of offers whose price is present. */
  function PricedCount(s: seq<Offer>): (n: nat)
    ensures n <= |s|
  {
    if s == [] then 0
    else (if Price(s[0]).Some? then 1 else 0) + PricedCount(s[1..])
  }
}
