/**
 * The request sent to the database service once the form is submitted: a
 * find on `health.drugs` whose filter holds four equality conditions on
 * dotted paths, one per field of the search request.
 *
 * `Matches` gives the document-store meaning of such a filter: a document
 * matches when every path reaches a string equal to the wanted value.
 */
module Query {
  import opened Wrappers
  import opened Offers
  import opened Catalogue

  /** One entry of the filter dictionary: the dotted path and the wanted value. */
  datatype Condition = Eq(path: string, value: string)

  datatype FindRequest = FindRequest(db: string, collection: string, query: seq<Condition>)

  const DrugPath := "searchTerm"
  const ConcentPath := "producto.concent"
  const FormPath := "producto.nombreFormaFarmaceutica"
  const DistrictPath := "comercio.locacion.distrito"

  function FilterQuery(r: SearchRequest): FindRequest
  {
    FindRequest("health", "drugs", [
      Eq(DrugPath, r.selectedDrug),
      Eq(ConcentPath, r.concent),
      Eq(FormPath, r.nombreFormaFarmaceutica),
      Eq(DistrictPath, r.selectedDistrito)])
  }

  /** The value the first condition on `path` asks for. */
  function Lookup(q: seq<Condition>, path: string): Option<string>
  {
    if q == [] then None
    else if q[0].path == path then Some(q[0].value)
    else Lookup(q[1..], path)
  }

  /** Reads a search request back from a find request on `health.drugs`. */
  function RequestOf(f: FindRequest): Option<SearchRequest>
  {
    if f.db != "health" || f.collection != "drugs" then None
    else
      match (Lookup(f.query, DrugPath), Lookup(f.query, ConcentPath),
             Lookup(f.query, FormPath), Lookup(f.query, DistrictPath))
      case (Some(d), Some(c), Some(n), Some(t)) => Some(SearchRequest(d, c, n, t))
      case _ => None
  }

  /** The four paths are different strings, so no condition shadows another. */
  lemma PathsDistinct()
    ensures DrugPath != ConcentPath && DrugPath != FormPath && DrugPath != DistrictPath
    ensures ConcentPath != FormPath && ConcentPath != DistrictPath && FormPath != DistrictPath
  {
    assert DrugPath[0] == 's' && ConcentPath[0] == 'p' && FormPath[0] == 'p' && DistrictPath[0] == 'c';
    assert ConcentPath[9] == 'c' && FormPath[9] == 'n';
  }

  /** The filter loses nothing: each request field can be read back from it. */
  lemma FilterQueryRoundTrip(r: SearchRequest)
    ensures RequestOf(FilterQuery(r)) == Some(r)
  {
    var q := FilterQuery(r).query;
    PathsDistinct();
    var q1, q2, q3 := q[1..], q[1..][1..], q[1..][1..][1..];
    assert q3 == [Eq(DistrictPath, r.selectedDistrito)];
    assert Lookup(q3, DistrictPath) == Some(r.selectedDistrito);
    assert q2 == [Eq(FormPath, r.nombreFormaFarmaceutica)] + q3;
    assert Lookup(q2, DistrictPath) == Some(r.selectedDistrito);
    assert Lookup(q2, FormPath) == Some(r.nombreFormaFarmaceutica);
    assert q1 == [Eq(ConcentPath, r.concent)] + q2;
    assert Lookup(q1, DistrictPath) == Some(r.selectedDistrito);
    assert Lookup(q1, FormPath) == Some(r.nombreFormaFarmaceutica);
    assert Lookup(q1, ConcentPath) == Some(r.concent);
    assert Lookup(q, DistrictPath) == Some(r.selectedDistrito);
    assert Lookup(q, FormPath) == Some(r.nombreFormaFarmaceutica);
    assert Lookup(q, ConcentPath) == Some(r.concent);
    assert Lookup(q, DrugPath) == Some(r.selectedDrug);
  }

  /** The string a dotted path reaches in a document, if it reaches one. */
  function FieldAt(o: Offer, path: string): Option<string>
  {
    if path == DrugPath then Some(o.searchTerm)
    else if path == ConcentPath then
      (match o.producto case Some(p) => Some(p.concent) case None => None)
    else if path == FormPath then
      (match o.producto case Some(p) => Some(p.nombreFormaFarmaceutica) case None => None)
    else if path == DistrictPath then
      (match o.comercio case Some(c) => Some(c.locacion.distrito) case None => None)
    else None
  }

  /** A document matches a filter when every condition's path reaches the wanted value. */
  predicate Matches(q: seq<Condition>, o: Offer)
  {
    forall i :: 0 <= i < |q| ==> FieldAt(o, q[i].path) == Some(q[i].value)
  }

  /** The offers the search asks for: the chosen drug, strength and form, sold in the chosen district. */
  predicate OfferFor(r: SearchRequest, o: Offer)
  {
    && o.searchTerm == r.selectedDrug
    && o.producto.Some?
    && o.producto.value.concent == r.concent
    && o.producto.value.nombreFormaFarmaceutica == r.nombreFormaFarmaceutica
    && o.comercio.Some?
    && o.comercio.value.locacion.distrito == r.selectedDistrito
  }

  /** The filter selects exactly the offers the search asks for. */
  lemma FilterSelectsExactly(r: SearchRequest, o: Offer)
    ensures Matches(FilterQuery(r).query, o) <==> OfferFor(r, o)
  {
    var q := FilterQuery(r).query;
    PathsDistinct();
    if Matches(q, o) {
      assert FieldAt(o, q[0].path) == Some(q[0].value);
      assert FieldAt(o, q[1].path) == Some(q[1].value);
      assert FieldAt(o, q[2].path) == Some(q[2].value);
      assert FieldAt(o, q[3].path) == Some(q[3].value);
    }
  }

  /** Submitting the form for the option labelled `chosen` fetches the offers of the first
      catalogue row carrying that label, in the chosen district. */
  lemma SearchForOption(options: seq<DrugDoc>, chosen: string, distrito: string, o: Offer)
    requires Offered(options, chosen)
    ensures exists j ::
      && 0 <= j < |options| && options[j].formOption == Some(chosen)
      && (forall i :: 0 <= i < j ==> options[i].formOption != Some(chosen))
      && (Matches(FilterQuery(Resolve(options, chosen, distrito)).query, o)
          <==> && o.searchTerm == options[j].searchTerm
               && o.producto.Some?
               && o.producto.value.concent == options[j].concent
               && o.producto.value.nombreFormaFarmaceutica == options[j].nombreFormaFarmaceutica
               && o.comercio.Some?
               && o.comercio.value.locacion.distrito == distrito)
  {
    var r := Resolve(options, chosen, distrito);
    FilterSelectsExactly(r, o);
  }
}
