# Busca tu Pepa: option catalogue, search request and price ranking

Busca tu Pepa is a chat front-end for looking up medicine prices. The user
picks a medicine (a drug, a strength and a pharmaceutical form) and a
district. The application then asks the database service for matching
offers and shows the three cheapest. This project models the data
handling behind those steps in `streamlit_app.py`:

- **Concentration parsing** (`Concentration`). `get_numerical_concent`
  finds every match of the regular expression `\d+\.?\d*` in a free-text
  strength such as `"2.5 ml"` or `"10-20mg"`. It returns the first match
  as a number, or 0 when there is no digit.
- **Drug options** (`Catalogue`). Each row of the unique-drugs
  aggregation is stamped in place with the label
  `"{searchTerm} {concent} [{nombreFormaFarmaceutica}]"`. The rows are
  then re-sorted with Python's stable `sorted`, keyed on drug name, then
  form, then numeric strength. The labels are listed in that order.
- **District options** (`Catalogue`): the district descriptions, sorted.
- **Selection resolution** (`Catalogue.Resolve`). The submitted label is
  turned into a search request, taken from the first catalogue row that
  carries that label.
- **Filter query** (`Query`). The search request becomes a find on
  `health.drugs` with four equality conditions on dotted paths. `Matches`
  gives those conditions their document-store meaning.
- **Price ranking** (`Ranker`). The offers are stably sorted by
  `producto.precios.precio2`; an offer without a price sorts as
  `float('inf')`. The first three are kept.

Supporting modules:

- `PyOrder` models Python's `<` on strings, numbers, `inf` and tuples, and
  proves it is a strict total order.
- `StableSort` models `sorted`. `Sort` is an insertion sort.
  `IsStableSortOf` is its specification: a permutation, ascending, with
  ties kept in input order. `SortIsStableSort` proves that `Sort` meets
  it, and `StableSortUnique` proves that no other result can.

Numbers are exact reals.

## Model

| member | source | states |
|---|---|---|
| PyOrder.StrLessTotal | streamlit_app.py:86-96 | any two different strings are ordered one way or the other by Python's string `<` |
| PyOrder.StrLessTransitive | streamlit_app.py:86-96 | Python's string `<` is transitive |
| PyOrder.StrLessAsymmetric | streamlit_app.py:86-96 | if one string sorts before another, the second does not sort before the first |
| PyOrder.KeyLessTotal | streamlit_app.py:86-90 | tuple keys are totally ordered, so `sorted` has a well-defined result |
| PyOrder.KeyLessTransitive | streamlit_app.py:86-90 | tuple `<` is transitive |
| PyOrder.KeyLessAsymmetric | streamlit_app.py:86-90 | if `a < b` then not `b < a` |
| StableSort.Sort | streamlit_app.py:86-90 | Python's `sorted(s, key=…)` as an insertion sort; `SortIsStableSort` and `StableSortUnique` state what it returns |
| StableSort.SortIsStableSort | streamlit_app.py:86-90 | `sorted` keeps the length, returns a permutation of its input in ascending key order, and keeps the input order of equal keys |
| StableSort.StableSortUnique | streamlit_app.py:86-90 | any two stable ascending permutations of one input are equal |
| StableSort.SortSortedIdentity | streamlit_app.py:86-90 | sorting an already ascending list returns it unchanged |
| Concentration.FindAll | streamlit_app.py:70 | `re.findall`: every string it returns is a numeral; `FindAllFirst` and `FindAllEmpty` state which matches it finds |
| Concentration.MatchIsNumeral | streamlit_app.py:70 | every non-empty regex match is a numeral: digits, then optionally a dot and digits |
| Concentration.MatchIsLongest | streamlit_app.py:70 | no numeral starting where a match starts is longer than the match (greedy matching) |
| Concentration.FindAllFirst | streamlit_app.py:70 | the first match found starts at the first digit and ends where the greedy match ends |
| Concentration.FindAllEmpty | streamlit_app.py:70 | `findall` returns no match exactly when the text has no digit |
| Concentration.FloatOf | streamlit_app.py:71 | `float` of a numeral, never negative; `FloatOfInteger` and `FloatOfDecimal` state its value |
| Concentration.FloatOfInteger | streamlit_app.py:71 | `float` of a numeral without a dot is the value of its digits |
| Concentration.FloatOfDecimal | streamlit_app.py:71 | `float` of `a.b` is the value of `a` plus the value of `b` over 10 to the power of the length of `b` |
| Concentration.ParseConcent | streamlit_app.py:69-71 | `get_numerical_concent`, never negative; `ParseFirstNumeral` and `ParseNoDigit` state its value |
| Concentration.ParseNoDigit | streamlit_app.py:69-71 | a strength with no digit parses to 0 |
| Concentration.ParseFirstNumeral | streamlit_app.py:69-71 | the parsed value is the `float` of the longest numeral starting at the first digit |
| Concentration.ParseLeadingInteger | streamlit_app.py:69-71 | an integer followed by a unit that starts with neither a digit nor a dot parses to that integer |
| Concentration.ParseIgnoresSuffix | streamlit_app.py:69-71 | appending text to a strength that has a digit and ends in neither a digit nor a dot does not change its value |
| ConcentrationExamples.ParseInteger | streamlit_app.py:69-71 | `"500mg"` parses to 500 |
| ConcentrationExamples.Parse20 | streamlit_app.py:69-71 | `"20mg"` parses to 20 |
| ConcentrationExamples.Parse100 | streamlit_app.py:69-71 | `"100mg"` parses to 100 |
| ConcentrationExamples.ParseDecimal | streamlit_app.py:69-71 | `"2.5 ml"` parses to 2.5 |
| ConcentrationExamples.ParseNoNumber | streamlit_app.py:69-71 | `"mg"` parses to 0 |
| ConcentrationExamples.ParseLeadingDot | streamlit_app.py:69-71 | `".5mg"` parses to 5, because the regex needs a digit before the dot |
| ConcentrationExamples.ParseRange | streamlit_app.py:69-71 | `"10-20mg"` parses to 10, the first number |
| Catalogue.Label | streamlit_app.py:81 | the label f-string; `LabelInjective`, `ResolveDistinctLabels` and `LabelCollision` state when it identifies a row |
| Catalogue.Stamp | streamlit_app.py:79-81 | a visited row keeps its drug name, strength and form and gains its own label as `formOption` |
| Catalogue.StampAll | streamlit_app.py:79-81 | every row is stamped and the list keeps its length and order |
| Catalogue.StampLabels | streamlit_app.py:79-81 | the loop stamps every row of the array in place, leaves the three key fields as they were, and leaves the array equal to `StampAll` of its old contents |
| Catalogue.DrugKey | streamlit_app.py:86-90 | the sort key `(searchTerm, nombreFormaFarmaceutica, get_numerical_concent(concent))`; `DrugKeyOrder` states the order it induces |
| Catalogue.DrugOptions | streamlit_app.py:86-90 | the re-sort of the stamped rows; `CatalogueSpec` states its result |
| Catalogue.DrugCatalogue | streamlit_app.py:79-90 | `unique_drugs` after stamping and re-sorting; `CatalogueSpec` and `CatalogueIdempotent` state what it holds |
| Catalogue.CatalogueNames | streamlit_app.py:79-93 | `unique_drugs_names`; `CatalogueSpec` states that each name is its row's label, in catalogue order |
| Catalogue.DrugKeyOrder | streamlit_app.py:86-90 | the sort key puts `a` no later than `b` exactly when `a` comes first by name, then by form, then by numeric strength |
| Catalogue.OptionNames | streamlit_app.py:93 | one label per row, in row order, each the row's `formOption` |
| Catalogue.CatalogueSpec | streamlit_app.py:79-93 | the options are the stamped rows, each kept once; they are in name/form/strength order, full ties keep input order, and each name is its row's label |
| Catalogue.CatalogueIdempotent | streamlit_app.py:79-90 | building the catalogue from its own output gives the same catalogue |
| Catalogue.BuildDrugOptions | streamlit_app.py:79-93 | the array ends up stamped; the returned rows and labels are the catalogue and its names for the original rows |
| Catalogue.Descriptions | streamlit_app.py:96 | one description per district row, in order |
| Catalogue.DistrictNames | streamlit_app.py:96 | `unique_distritos_names`; `DistrictNamesSpec` states its contents and order |
| Catalogue.DistrictNamesSpec | streamlit_app.py:96 | the district names are the descriptions in ascending string order, duplicates included |
| Catalogue.Matching | streamlit_app.py:156 | the `matching_item` comprehension; `MatchingFirst` states its head |
| Catalogue.MatchingFirst | streamlit_app.py:156 | when the label is offered, `matching_item` is non-empty and headed by the first row with that label |
| Catalogue.Resolve | streamlit_app.py:156-163 | the request takes drug, strength and form from the first row whose label was chosen, and takes the chosen district |
| Catalogue.LabelInjective | streamlit_app.py:81 | equal labels mean equal (drug, strength, form) when drug names and strengths contain no space |
| Catalogue.ResolveDistinctLabels | streamlit_app.py:156-163 | choosing row `i`'s label requests row `i` itself whenever no two rows share a label |
| Catalogue.ResolveRoundTrip | streamlit_app.py:156-163 | choosing row `i`'s label requests row `i` itself, given distinct rows whose drug names and strengths contain no space (then no two labels coincide) |
| Catalogue.LabelCollision | streamlit_app.py:81 | two different rows, "Acido Folico"/"5mg" and "Acido"/"Folico 5mg", share a label |
| CatalogueExamples.ByStrength | streamlit_app.py:86-90 | within one drug and form, a lower numeric strength sorts first |
| CatalogueExamples.TwoRowsSwapped | streamlit_app.py:79-93 | two rows given in the wrong order come out swapped, with their labels |
| CatalogueExamples.NumericBeforeLexical | streamlit_app.py:79-93 | `X 100mg` and `X 20mg` are listed as 20mg then 100mg, numerically rather than as text |
| CatalogueExamples.Paracetamol | streamlit_app.py:79-93 | the rows 500mg, 100mg of one tablet are listed as `Paracetamol 100mg [Tableta]`, `Paracetamol 500mg [Tableta]` |
| CatalogueExamples.EmptyCatalogue | streamlit_app.py:79-93 | no rows give no options |
| Offers.Price | streamlit_app.py:222 | the nested `get`s return a price exactly when all three levels are present |
| Offers.PriceKey | streamlit_app.py:222 | the sort key lambda, with `float('inf')` for a missing price; `PriceKeyOrder` states the order it induces |
| Offers.PriceKeyOrder | streamlit_app.py:220-224 | the price key puts priced offers by ascending price, and every priced offer before every unpriced one |
| Query.FilterQuery | streamlit_app.py:194-203 | `find_filtered_drug_body`; `FilterQueryRoundTrip` and `FilterSelectsExactly` state what it carries and what it selects |
| Query.Matches | streamlit_app.py:194-203 | the database's reading of the filter dictionary (every path equals its value); `FilterSelectsExactly` states it for the application's filter |
| Query.PathsDistinct | streamlit_app.py:197-202 | the four filter paths are different, so no condition overrides another |
| Query.FilterQueryRoundTrip | streamlit_app.py:194-203 | the find targets `health.drugs`, and every field of the search request can be read back from the filter |
| Query.FilterSelectsExactly | streamlit_app.py:194-203 | a document matches the filter exactly when it has the requested drug, strength and form and is sold in the requested district |
| Query.SearchForOption | streamlit_app.py:156-203 | submitting a label fetches exactly the offers of the first catalogue row carrying that label in the chosen district |
| Ranker.Take | streamlit_app.py:226 | the slice `[:n]` is the first `min(n, len)` elements |
| Ranker.TopThree | streamlit_app.py:220-226 | `top_3_filtered_drugs`; `TopThreeShape`, `TopThreeAscending`, `TopThreeCheapest` and `UnpricedShownOnlyWhenFew` state what it holds |
| Ranker.TopThreeShape | streamlit_app.py:220-226 | at most three offers are shown (three when there are three), all taken from the results, and they are the head of the unique stable sort by price |
| Ranker.TopThreeAscending | streamlit_app.py:220-226 | the offers shown are in ascending price order, priced before unpriced |
| Ranker.TopThreeCheapest | streamlit_app.py:220-226 | no result left out is cheaper than any offer shown |
| Ranker.PricedCountFilter | streamlit_app.py:220-224 | the priced offers and those keyed `float('inf')` together make up the whole list |
| Ranker.UnpricedShownOnlyWhenFew | streamlit_app.py:220-226 | an unpriced offer is shown at position `i` only if at most `i` offers carry a price |
| Ranker.ThreePricedShowPrices | streamlit_app.py:220-226 | with three or more priced offers, all three shown have a price |
| RankerExamples.CheapestThree | streamlit_app.py:220-226 | results priced [none, 5, 3, 8, 1] show the offers at 1, 3 and 5 |
| RankerExamples.TiesKeepOrder | streamlit_app.py:220-226 | two offers at the same price keep the order the database returned them in |

## Left out

- `mongo_consult` (the HTTP call to the database service, its ten-minute cache and its error fallback to `[]`) is not modelled. The rows and offers it returns are parameters.
- The two aggregation bodies (`consult_unique_drugs`, `consult_unique_distritos`) run on the server. Their grouping and server-side sort are not modelled. The client-side re-sort the model does cover makes the server's order irrelevant, except as the tie-break that `sorted` keeps.
- Chat transcript, session-state flags, greeting, streaming text and the form widgets are UI and are left out. The selected label and district are parameters.
- The display loop (lines 231-248) formats text and is not modelled. So is its `KeyError` on an unpriced offer among the top three, a case that `Ranker.UnpricedShownOnlyWhenFew` bounds.
- `Catalogue.Resolve` requires the chosen label to be in the catalogue. With no selection (`None`) or an unknown label, the source fails on `matching_item[0]`. The district is taken as a string, so a `None` district is not modelled.
- Numbers are exact reals. IEEE rounding of long numerals, NaN and the precision of `float` are not modelled.
- The regex `\d` is modelled as the ASCII digits `0`-`9`. Python also accepts other Unicode decimal digits.
- `Offers.Price`: the document shapes that make the price lookup at line 222 fail are not modelled; prices are numbers or absent. These are a `producto` or `precios` present as `null` (`None.get` raises `AttributeError`), a `precio2` of `null` (`float(None)` raises `TypeError`), and a `precio2` string that `float()` cannot parse (`ValueError`); a numeric string, which `float()` converts, is not modelled either.
- A `comercio` without `locacion` (or a `locacion` without `distrito`) cannot be expressed. Such a document does not match the district condition; the model only lets `comercio` as a whole be missing.
- `PyOrder.AtomLess` orders numbers and strings against each other by kind. Python raises `TypeError` on such a comparison, but no key here ever makes one.
- District names are sorted with duplicates kept, as the code does. The code does no client-side de-duplication.
- `Query.Matches` covers only the four equality conditions the application sends, not the rest of the query language.
