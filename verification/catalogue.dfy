/**
 * The option lists of the search form (streamlit_app.py, lines 76-96) and
 * the resolution of the submitted form into a search request (lines
 * 156-163).
 *
 * Drug options: every row of the unique-drugs aggregation is stamped in
 * place with the display label "{searchTerm} {concent} [{form}]", the rows
 * are re-sorted by (searchTerm, form, numeric concentration) with Python's
 * stable `sorted`, and the labels are projected in that order. District
 * options: the district descriptions, sorted.
 */
module Catalogue {
  import opened Wrappers
  import opened PyOrder
  import opened StableSort
  import opened Concentration

  /** One row of the unique-drugs aggregation; `formOption` is the key the label loop adds. */
  datatype DrugDoc = DrugDoc(
    searchTerm: string,
    concent: string,
    nombreFormaFarmaceutica: string,
    formOption: Option<string>)

  /** One row of the unique-districts aggregation. */
  datatype DistrictDoc = DistrictDoc(descripcion: string)

  /** What the submitted form asks the backend for. */
  datatype SearchRequest = SearchRequest(
    selectedDrug: string,
    concent: string,
    nombreFormaFarmaceutica: string,
    selectedDistrito: string)

  /** The display label of a drug row. */
  function Label(d: DrugDoc): string
  {
    d.searchTerm + " " + d.concent + " [" + d.nombreFormaFarmaceutica + "]"
  }

  predicate Stamped(d: DrugDoc)
  {
    d.formOption == Some(Label(d))
  }

  /** The row after the label loop has visited it. */
  function Stamp(d: DrugDoc): (r: DrugDoc)
    ensures r.searchTerm == d.searchTerm && r.concent == d.concent
    ensures r.nombreFormaFarmaceutica == d.nombreFormaFarmaceutica
    ensures r.formOption == Some(Label(d))
    ensures Stamped(r)
  {
    d.(formOption := Some(Label(d)))
  }

  function StampAll(docs: seq<DrugDoc>): (r: seq<DrugDoc>)
    ensures |r| == |docs|
    ensures forall i :: 0 <= i < |docs| ==> r[i] == Stamp(docs[i])
  {
    seq(|docs|, i requires 0 <= i < |docs| => Stamp(docs[i]))
  }

  /** The label loop: each row gains `formOption` in place and keeps its other fields. */
  method StampLabels(docs: array<DrugDoc>)
    modifies docs
    ensures forall i :: 0 <= i < docs.Length ==>
      && docs[i].searchTerm == old(docs[i].searchTerm)
      && docs[i].concent == old(docs[i].concent)
      && docs[i].nombreFormaFarmaceutica == old(docs[i].nombreFormaFarmaceutica)
      && docs[i].formOption == Some(old(docs[i].searchTerm) + " " + old(docs[i].concent) + " [" + old(docs[i].nombreFormaFarmaceutica) + "]")
    ensures docs[..] == StampAll(old(docs[..]))
  {
    for i := 0 to docs.Length
      invariant forall j :: 0 <= j < i ==> docs[j] == Stamp(old(docs[j]))
      invariant forall j :: i <= j < docs.Length ==> docs[j] == old(docs[j])
    {
      docs[i] := docs[i].(formOption := Some(Label(docs[i])));
    }
  }

  /** The sort key of a drug row: (searchTerm, form, numeric concentration). */
  function DrugKey(d: DrugDoc): Key
  {
    [Str(d.searchTerm), Str(d.nombreFormaFarmaceutica), Num(ParseConcent(d.concent))]
  }

  /** `a` may come before `b`: by drug name, then form, then the number in the concentration. */
  predicate DrugLeq(a: DrugDoc, b: DrugDoc)
  {
    || StrLess(a.searchTerm, b.searchTerm)
    || (a.searchTerm == b.searchTerm && StrLess(a.nombreFormaFarmaceutica, b.nombreFormaFarmaceutica))
    || (a.searchTerm == b.searchTerm && a.nombreFormaFarmaceutica == b.nombreFormaFarmaceutica
        && ParseConcent(a.concent) <= ParseConcent(b.concent))
  }

  /** The tuple order of the sort key is the field order `DrugLeq`. */
  lemma DrugKeyOrder(a: DrugDoc, b: DrugDoc)
    ensures !KeyLess(DrugKey(b), DrugKey(a)) <==> DrugLeq(a, b)
  {
    var ka, kb := DrugKey(a), DrugKey(b);
    var ca, cb := ParseConcent(a.concent), ParseConcent(b.concent);
    assert ka[1..] == [Str(a.nombreFormaFarmaceutica), Num(ca)];
    assert kb[1..] == [Str(b.nombreFormaFarmaceutica), Num(cb)];
    assert ka[1..][1..] == [Num(ca)] && kb[1..][1..] == [Num(cb)];
    assert KeyLess(kb[1..][1..], ka[1..][1..]) <==> cb < ca by {
      assert kb[1..][1..][1..] == [] && ka[1..][1..][1..] == [];
    }
    assert KeyLess(kb[1..], ka[1..]) <==>
      if b.nombreFormaFarmaceutica != a.nombreFormaFarmaceutica then StrLess(b.nombreFormaFarmaceutica, a.nombreFormaFarmaceutica)
      else cb < ca;
    assert KeyLess(kb, ka) <==>
      if b.searchTerm != a.searchTerm then StrLess(b.searchTerm, a.searchTerm)
      else KeyLess(kb[1..], ka[1..]);
    StrLessTotal(a.searchTerm, b.searchTerm);
    StrLessTotal(a.nombreFormaFarmaceutica, b.nombreFormaFarmaceutica);
    if StrLess(a.searchTerm, b.searchTerm) {
      StrLessAsymmetric(a.searchTerm, b.searchTerm);
    }
    if StrLess(a.nombreFormaFarmaceutica, b.nombreFormaFarmaceutica) {
      StrLessAsymmetric(a.nombreFormaFarmaceutica, b.nombreFormaFarmaceutica);
    }
    StrLessIrreflexive(a.searchTerm);
    StrLessIrreflexive(a.nombreFormaFarmaceutica);
  }

  /** The re-sorted drug rows (lines 86-90). */
  function DrugOptions(docs: seq<DrugDoc>): seq<DrugDoc>
  {
    Sort(docs, DrugKey)
  }

  /** The labels in display order (line 93); every row has been stamped by then. */
  function OptionNames(options: seq<DrugDoc>): (names: seq<string>)
    requires forall i :: 0 <= i < |options| ==> options[i].formOption.Some?
    ensures |names| == |options|
    ensures forall i :: 0 <= i < |options| ==> Some(names[i]) == options[i].formOption
  {
    seq(|options|, i requires 0 <= i < |options| => options[i].formOption.value)
  }

  /** What the catalogue holds after lines 79-90, for the raw aggregation rows `docs`. */
  function DrugCatalogue(docs: seq<DrugDoc>): seq<DrugDoc>
  {
    DrugOptions(StampAll(docs))
  }

  /** `unique_drugs_names` for the raw aggregation rows `docs`. */
  function CatalogueNames(docs: seq<DrugDoc>): seq<string>
  {
    CatalogueStamped(docs);
    OptionNames(DrugCatalogue(docs))
  }

  lemma CatalogueStamped(docs: seq<DrugDoc>)
    ensures forall i :: 0 <= i < |DrugCatalogue(docs)| ==> Stamped(DrugCatalogue(docs)[i])
  {
    var stamped := StampAll(docs);
    var options := DrugCatalogue(docs);
    SortIsStableSort(stamped, DrugKey);
    forall i | 0 <= i < |options|
      ensures Stamped(options[i])
    {
      assert options[i] in multiset(options);
      assert options[i] in stamped;
    }
  }

  /**
   * The drug options: the stamped rows, each once, ordered by drug name,
   * form and numeric concentration, rows that tie on all three keeping
   * their input order, each shown by its label.
   */
  lemma CatalogueSpec(docs: seq<DrugDoc>)
    ensures |DrugCatalogue(docs)| == |docs|
    ensures multiset(DrugCatalogue(docs)) == multiset(StampAll(docs))
    ensures forall i, j :: 0 <= i < j < |docs| ==> DrugLeq(DrugCatalogue(docs)[i], DrugCatalogue(docs)[j])
    ensures Stable(DrugCatalogue(docs), StampAll(docs), DrugKey)
    ensures forall i :: 0 <= i < |docs| ==> Stamped(DrugCatalogue(docs)[i])
    ensures |CatalogueNames(docs)| == |docs|
    ensures forall i :: 0 <= i < |docs| ==> CatalogueNames(docs)[i] == Label(DrugCatalogue(docs)[i])
  {
    var options := DrugCatalogue(docs);
    SortIsStableSort(StampAll(docs), DrugKey);
    CatalogueStamped(docs);
    forall i, j | 0 <= i < j < |docs|
      ensures DrugLeq(options[i], options[j])
    {
      DrugKeyOrder(options[i], options[j]);
    }
  }

  /** Building the catalogue again from its own rows gives it back unchanged. */
  lemma CatalogueIdempotent(docs: seq<DrugDoc>)
    ensures DrugCatalogue(DrugCatalogue(docs)) == DrugCatalogue(docs)
  {
    var options := DrugCatalogue(docs);
    SortIsStableSort(StampAll(docs), DrugKey);
    CatalogueStamped(docs);
    assert StampAll(options) == options;
    SortSortedIdentity(options, DrugKey);
  }

  /** Lines 76-93: stamp the rows in place, re-sort them, and list their labels. */
  method BuildDrugOptions(docs: array<DrugDoc>) returns (options: seq<DrugDoc>, names: seq<string>)
    modifies docs
    ensures docs[..] == StampAll(old(docs[..]))
    ensures options == DrugCatalogue(old(docs[..]))
    ensures names == CatalogueNames(old(docs[..]))
  {
    StampLabels(docs);
    options := DrugOptions(docs[..]);
    assert options == DrugCatalogue(old(docs[..]));
    CatalogueStamped(old(docs[..]));
    names := OptionNames(options);
  }

  function DistrictKey(d: string): Key
  {
    [Str(d)]
  }

  function Descriptions(docs: seq<DistrictDoc>): (r: seq<string>)
    ensures |r| == |docs|
    ensures forall i :: 0 <= i < |docs| ==> r[i] == docs[i].descripcion
  {
    seq(|docs|, i requires 0 <= i < |docs| => docs[i].descripcion)
  }

  /** Line 96: the district names, sorted. */
  function DistrictNames(docs: seq<DistrictDoc>): seq<string>
  {
    Sort(Descriptions(docs), DistrictKey)
  }

  /** The district names are the descriptions in ascending order, duplicates kept. */
  lemma DistrictNamesSpec(docs: seq<DistrictDoc>)
    ensures |DistrictNames(docs)| == |docs|
    ensures multiset(DistrictNames(docs)) == multiset(Descriptions(docs))
    ensures forall i, j :: 0 <= i < j < |docs| ==>
      DistrictNames(docs)[i] == DistrictNames(docs)[j] || StrLess(DistrictNames(docs)[i], DistrictNames(docs)[j])
  {
    var names := DistrictNames(docs);
    SortIsStableSort(Descriptions(docs), DistrictKey);
    forall i, j | 0 <= i < j < |docs|
      ensures names[i] == names[j] || StrLess(names[i], names[j])
    {
      assert !KeyLess(DistrictKey(names[j]), DistrictKey(names[i]));
      assert DistrictKey(names[j])[1..] == [] && DistrictKey(names[i])[1..] == [];
      StrLessTotal(names[i], names[j]);
    }
  }

  /** `matching_item`: the catalogue rows whose label is the chosen one, in catalogue order. */
  function Matching(options: seq<DrugDoc>, chosen: string): seq<DrugDoc>
  {
    if options == [] then []
    else (if options[0].formOption == Some(chosen) then [options[0]] else []) + Matching(options[1..], chosen)
  }

  predicate Offered(options: seq<DrugDoc>, chosen: string)
  {
    exists i :: 0 <= i < |options| && options[i].formOption == Some(chosen)
  }

  /** `matching_item` is non-empty and headed by the first row carrying the label. */
  lemma {:induction false} MatchingFirst(options: seq<DrugDoc>, chosen: string)
    requires Offered(options, chosen)
    ensures Matching(options, chosen) != []
    ensures exists j ::
              && 0 <= j < |options|
              && options[j].formOption == Some(chosen)
              && (forall i :: 0 <= i < j ==> options[i].formOption != Some(chosen))
              && Matching(options, chosen)[0] == options[j]
  {
    if options[0].formOption != Some(chosen) {
      var k :| 0 <= k < |options| && options[k].formOption == Some(chosen);
      assert options[1..][k - 1] == options[k];
      MatchingFirst(options[1..], chosen);
      var j :| && 0 <= j < |options[1..]|
               && options[1..][j].formOption == Some(chosen)
               && (forall i :: 0 <= i < j ==> options[1..][i].formOption != Some(chosen))
               && Matching(options[1..], chosen)[0] == options[1..][j];
      assert forall i :: 1 <= i < j + 1 ==> options[i] == options[1..][i - 1];
      assert options[j + 1] == options[1..][j];
    }
  }

  /**
   * Lines 156-163: the request copies drug, concentration and form from the
   * first catalogue row whose label is the chosen one, and takes the chosen
   * district. With no such row the source fails indexing `matching_item[0]`.
   */
  function Resolve(options: seq<DrugDoc>, chosen: string, distrito: string): (r: SearchRequest)
    requires Offered(options, chosen)
    ensures exists j ::
              && 0 <= j < |options|
              && options[j].formOption == Some(chosen)
              && (forall i :: 0 <= i < j ==> options[i].formOption != Some(chosen))
              && r == SearchRequest(options[j].searchTerm, options[j].concent, options[j].nombreFormaFarmaceutica, distrito)
  {
    MatchingFirst(options, chosen);
    var item := Matching(options, chosen)[0];
    SearchRequest(item.searchTerm, item.concent, item.nombreFormaFarmaceutica, distrito)
  }

  predicate NoSpace(s: string)
  {
    forall i :: 0 <= i < |s| ==> s[i] != ' '
  }

  /** Two words without spaces, each followed by a space, are told apart by the space. */
  lemma SplitAtSpace(x: string, u: string, y: string, v: string)
    requires NoSpace(x) && NoSpace(y)
    requires x + " " + u == y + " " + v
    ensures x == y && u == v
  {
    var l, r := x + " " + u, y + " " + v;
    assert forall i :: 0 <= i < |x| ==> l[i] == x[i];
    assert forall i :: 0 <= i < |y| ==> r[i] == y[i];
    assert l[|x|] == ' ' && r[|y|] == ' ';
    assert |x| == |y|;
    assert x == l[..|x|] && y == r[..|y|];
    assert u == l[|x| + 1..] && v == r[|y| + 1..];
  }

  /** A label names one (drug, concentration, form) when the drug name and the concentration have no spaces. */
  lemma LabelInjective(a: DrugDoc, b: DrugDoc)
    requires NoSpace(a.searchTerm) && NoSpace(b.searchTerm) && NoSpace(a.concent) && NoSpace(b.concent)
    requires Label(a) == Label(b)
    ensures a.searchTerm == b.searchTerm && a.concent == b.concent
    ensures a.nombreFormaFarmaceutica == b.nombreFormaFarmaceutica
  {
    var ra := "[" + a.nombreFormaFarmaceutica + "]";
    var rb := "[" + b.nombreFormaFarmaceutica + "]";
    assert Label(a) == a.searchTerm + " " + (a.concent + " " + ra);
    assert Label(b) == b.searchTerm + " " + (b.concent + " " + rb);
    SplitAtSpace(a.searchTerm, a.concent + " " + ra, b.searchTerm, b.concent + " " + rb);
    SplitAtSpace(a.concent, ra, b.concent, rb);
    assert a.nombreFormaFarmaceutica == ra[1..|ra| - 1];
    assert b.nombreFormaFarmaceutica == rb[1..|rb| - 1];
  }

  /** A row's (drug, concentration, form): what the aggregation groups by. */
  function Identity(d: DrugDoc): (string, string, string)
  {
    (d.searchTerm, d.concent, d.nombreFormaFarmaceutica)
  }

  /**
   * Choosing the label of catalogue row `i` requests exactly that row, when
   * no two rows carry the same label.
   */
  lemma ResolveDistinctLabels(options: seq<DrugDoc>, i: nat, distrito: string)
    requires i < |options|
    requires forall k :: 0 <= k < |options| ==> Stamped(options[k])
    requires forall k, l :: 0 <= k < l < |options| ==> Label(options[k]) != Label(options[l])
    ensures Offered(options, Label(options[i]))
    ensures Resolve(options, Label(options[i]), distrito)
         == SearchRequest(options[i].searchTerm, options[i].concent, options[i].nombreFormaFarmaceutica, distrito)
  {
    var r := Resolve(options, Label(options[i]), distrito);
    var j :| 0 <= j < |options| && options[j].formOption == Some(Label(options[i]))
      && r == SearchRequest(options[j].searchTerm, options[j].concent, options[j].nombreFormaFarmaceutica, distrito);
    assert Label(options[j]) == Label(options[i]);
  }

  /**
   * Choosing the label of catalogue row `i` requests exactly that row, when
   * the rows are distinct (as the grouping makes them) and their drug names
   * and concentrations have no spaces: then no two labels coincide.
   */
  lemma ResolveRoundTrip(options: seq<DrugDoc>, i: nat, distrito: string)
    requires i < |options|
    requires forall k :: 0 <= k < |options| ==> Stamped(options[k])
    requires forall k :: 0 <= k < |options| ==> NoSpace(options[k].searchTerm) && NoSpace(options[k].concent)
    requires forall k, l :: 0 <= k < l < |options| ==> Identity(options[k]) != Identity(options[l])
    ensures Offered(options, Label(options[i]))
    ensures Resolve(options, Label(options[i]), distrito)
         == SearchRequest(options[i].searchTerm, options[i].concent, options[i].nombreFormaFarmaceutica, distrito)
  {
    forall k, l | 0 <= k < l < |options|
      ensures Label(options[k]) != Label(options[l])
    {
      if Label(options[k]) == Label(options[l]) {
        LabelInjective(options[k], options[l]);
      }
    }
    ResolveDistinctLabels(options, i, distrito);
  }

  /** Two different rows can share a label, which is why the first match is taken. */
  lemma LabelCollision()
    ensures var a := DrugDoc("Acido Folico", "5mg", "Tableta", None);
            var b := DrugDoc("Acido", "Folico 5mg", "Tableta", None);
            Identity(a) != Identity(b) && Label(a) == Label(b)
  {
  }
}

/** The worked examples of the drug catalogue. */
module CatalogueExamples {
  import opened Wrappers
  import opened PyOrder
  import opened StableSort
  import opened Concentration
  import opened Catalogue
  import opened ConcentrationExamples

  /** Rows of one drug and form are ordered by the number in their concentration. */
  lemma ByStrength(drug: string, lower: string, higher: string, form: string)
    requires ParseConcent(lower) < ParseConcent(higher)
    ensures KeyLess(DrugKey(Stamp(DrugDoc(drug, lower, form, None))), DrugKey(Stamp(DrugDoc(drug, higher, form, None))))
  {
    DrugKeyOrder(Stamp(DrugDoc(drug, higher, form, None)), Stamp(DrugDoc(drug, lower, form, None)));
  }

  /** The catalogue of two rows that arrive in the wrong order. */
  lemma TwoRowsSwapped(first: DrugDoc, second: DrugDoc)
    requires KeyLess(DrugKey(Stamp(second)), DrugKey(Stamp(first)))
    ensures DrugCatalogue([first, second]) == [Stamp(second), Stamp(first)]
    ensures CatalogueNames([first, second]) == [Label(second), Label(first)]
  {
    var s := StampAll([first, second]);
    assert s == [Stamp(first), Stamp(second)];
    assert s[..1] == [Stamp(first)];
    assert Sort([Stamp(first)], DrugKey) == [Stamp(first)];
    assert InsertPos(Stamp(second), [Stamp(first)], DrugKey) == 0;
  }

  /** Within one drug and form, 20mg comes before 100mg although "100mg" sorts first as text. */
  lemma NumericBeforeLexical()
    ensures CatalogueNames([DrugDoc("X", "100mg", "Tableta", None), DrugDoc("X", "20mg", "Tableta", None)])
         == ["X 20mg [Tableta]", "X 100mg [Tableta]"]
  {
    assert Label(DrugDoc("X", "100mg", "Tableta", None)) == "X 100mg [Tableta]" by {}
    assert Label(DrugDoc("X", "20mg", "Tableta", None)) == "X 20mg [Tableta]" by {}
    Parse20();
    Parse100();
    ByStrength("X", "20mg", "100mg", "Tableta");
    TwoRowsSwapped(DrugDoc("X", "100mg", "Tableta", None), DrugDoc("X", "20mg", "Tableta", None));
  }

  /** From aggregation rows to form labels: two strengths of one drug, by increasing strength. */
  lemma Paracetamol()
    ensures CatalogueNames([DrugDoc("Paracetamol", "500mg", "Tableta", None), DrugDoc("Paracetamol", "100mg", "Tableta", None)])
         == ["Paracetamol 100mg [Tableta]", "Paracetamol 500mg [Tableta]"]
  {
    assert Label(DrugDoc("Paracetamol", "500mg", "Tableta", None)) == "Paracetamol 500mg [Tableta]" by {}
    assert Label(DrugDoc("Paracetamol", "100mg", "Tableta", None)) == "Paracetamol 100mg [Tableta]" by {}
    Parse100();
    ParseInteger();
    ByStrength("Paracetamol", "100mg", "500mg", "Tableta");
    TwoRowsSwapped(DrugDoc("Paracetamol", "500mg", "Tableta", None), DrugDoc("Paracetamol", "100mg", "Tableta", None));
  }

  /** An empty aggregation gives an empty option list. */
  lemma EmptyCatalogue()
    ensures CatalogueNames([]) == []
  {
  }
}
