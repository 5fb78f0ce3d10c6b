# Stock screen transform — a Dafny model

This project models the logic of the inventory screen `ProductosStock`
(`src/components/ProductosStock.jsx`): the product list loaded from the data
store, the search filter, the column sort and its comparator, the sort-header
state machine `handleSort`, the movement classifier that turns stock-movement
rows into ledger lines, and the state updates of `verMovimientos` and
`cargarProductos`. Query results are passed in as values
(`Result<Option<seq<Product>>, FetchError>` and
`Result<Option<seq<Movement>>, FetchError>`, where `None` stands for a `null`
`data`), so every operation is a pure function on an immutable state record.

Modules, one per concern:

- `Wrappers` — `Option` (nullable columns) and `Result` (query outcomes).
- `Strings` — `toLowerCase` (Basic Latin and Latin-1 capitals), `includes`,
  and JavaScript's `<` on strings, each related to an independent definition
  (a listed table of capitals and their small letters, a substring window,
  textbook lexicographic order).
- `Numerals` — `String(n)` for integers and the integer reading of
  `parseFloat`, with their round trips.
- `Rows` — column values (`Null | Num | Text`), products, movements, the
  `p[column]` lookup and the `parseFloat(v) || 0` coercion.
- `ProductFilter` — the search filter.
- `ProductSort` — the comparator and a stable insertion sort, proved to be a
  sorted, stable permutation and the only such arrangement.
- `Movements` — the classifier, with a reading of the description back to
  the movement kind and quantity.
- `StockScreen` — the screen state and its transitions.

Two points about the code that a reader might expect otherwise:

- In descending order the comparator (source lines 72-73) puts absent values
  first: it returns `-1` for an absent left value when the direction is
  descending. Its comment at line 70 only promises "last in ascending order"
  (`ProductSort.AscendingPutsAbsentLast`,
  `ProductSort.DescendingPutsAbsentFirst`).
- `verMovimientos` has no stale-answer guard: a movement answer is stored
  whatever the current product is by then (`StockScreen.ReceiveMovements`
  does not look at `productoActual`).

## Model

| member | source | states |
|---|---|---|
| `Strings.ContainsIffOccurs` | src/components/ProductosStock.jsx:57-59 | `includes` succeeds exactly when some window of the text equals the needle |
| `Strings.LowerCharTable` | src/components/ProductosStock.jsx:57-59 | the listed capitals are exactly the characters lower-casing changes, and each becomes the small letter listed at its position |
| `Strings.LowerFollowsTable` | src/components/ProductosStock.jsx:57-59 | lower-casing a text replaces each listed capital by its listed small letter and keeps every other character |
| `Strings.LowerUnchanged` | src/components/ProductosStock.jsx:57-59 | a text is its own lower-case form exactly when it holds none of the listed capitals |
| `Strings.LowerIdempotent` | src/components/ProductosStock.jsx:57-59 | lower-casing an already lower-cased text changes nothing |
| `Strings.LessIsLexicographic` | src/components/ProductosStock.jsx:91-96 | string `<` holds exactly when, after a common prefix, `a` ends first or has the smaller character |
| `Strings.LessTrichotomy` | src/components/ProductosStock.jsx:91-97 | of two different strings exactly one is before the other, so `<`, `>` and "equal" cover every pair once |
| `Strings.LessTransitive` | src/components/ProductosStock.jsx:91-96 | string `<` is transitive |
| `Numerals.NatToString` | src/components/ProductosStock.jsx:128 | a printed quantity is a non-empty run of digits without a leading zero |
| `Numerals.DigitsValueOfNatToString` | src/components/ProductosStock.jsx:128 | the digits printed for a quantity denote that quantity |
| `Numerals.NatToStringInjective` | src/components/ProductosStock.jsx:128 | different quantities print differently |
| `Numerals.ParseNumberOfIntToString` | src/components/ProductosStock.jsx:78-79 | `parseFloat(String(n))` is `n` for every integer |
| `Rows.ToNumber` | src/components/ProductosStock.jsx:78-79 | a number coerces to itself, text that parses coerces to its parsed number, and text that is not a number coerces to 0 |
| `Rows.ToNumberOfPrintedNumber` | src/components/ProductosStock.jsx:78-79 | a number and its printed text coerce to the same number |
| `ProductFilter.Select` | src/components/ProductosStock.jsx:56-61 | the kept products are exactly the matching ones, in their original order, each with as many copies as the input holds |
| `ProductFilter.Filter` | src/components/ProductosStock.jsx:52-62 | an empty search keeps the list unchanged; otherwise exactly the matching products stay, as an order-preserving sublist keeping every copy of each |
| `ProductFilter.FilterKeepsSubstringMatches` | src/components/ProductosStock.jsx:55-62 | for a non-empty search a product stays exactly when its lower-cased name, code or category, absent read as "", holds the lower-cased search as a substring |
| `ProductSort.Compare` | src/components/ProductosStock.jsx:66-98 | the comparator answers -1, 0 or 1 |
| `ProductSort.DescendingNegatesAscending` | src/components/ProductosStock.jsx:70-97 | the descending comparator is the ascending one negated, for every pair |
| `ProductSort.CompareAntisymmetric` | src/components/ProductosStock.jsx:70-97 | swapping the products negates the answer and a product ties with itself |
| `ProductSort.AbsentValuesTie` | src/components/ProductosStock.jsx:71 | two absent values compare 0 in either direction |
| `ProductSort.AbsentValuesPlacement` | src/components/ProductosStock.jsx:72-73 | an absent value compares after a present one ascending and before it descending |
| `ProductSort.NumericColumnsCompareNumbers` | src/components/ProductosStock.jsx:78-85 | in the five numeric columns present values compare by their coerced numbers |
| `ProductSort.TextColumnsCompareLowerCase` | src/components/ProductosStock.jsx:87-97 | in every other column present values compare by their lower-cased text, tying exactly when those are equal |
| `ProductSort.CompareTransitive` | src/components/ProductosStock.jsx:66-98 | the comparator is transitive, a total preorder the sort can rely on |
| `ProductSort.TieTransitive` | src/components/ProductosStock.jsx:66-98 | ties form an equivalence |
| `ProductSort.OrderIsPreorder` | src/components/ProductosStock.jsx:66-98 | for every column and direction the comparator is antisymmetric and transitive |
| `ProductSort.Insert` | src/components/ProductosStock.jsx:66 | inserting into a sorted list keeps it sorted and adds exactly one element |
| `ProductSort.SortBy` | src/components/ProductosStock.jsx:66 | sorting under an antisymmetric comparator yields a permutation whose adjacent pairs compare at most 0 |
| `ProductSort.SortProducts` | src/components/ProductosStock.jsx:66-98 | the sorted list is a permutation of the input whose adjacent pairs compare at most 0 |
| `ProductSort.Arrange` | src/components/ProductosStock.jsx:65-101 | with a sort column the list is a sorted permutation; with none it is left as it is |
| `ProductSort.SortedEverywhere` | src/components/ProductosStock.jsx:66-98 | in a sorted list every earlier product compares at most 0 with every later one |
| `ProductSort.AscendingPutsAbsentLast` | src/components/ProductosStock.jsx:70-73 | sorted ascending, products without a value come after all products with one |
| `ProductSort.DescendingPutsAbsentFirst` | src/components/ProductosStock.jsx:70-73 | sorted descending, products without a value come before all products with one |
| `ProductSort.TieExcludesStrict` | src/components/ProductosStock.jsx:66-98 | a product strictly before `x` cannot tie with anything `x` ties with |
| `ProductSort.TiesWithInsert` | src/components/ProductosStock.jsx:66 | an inserted product goes ahead of the products it ties with |
| `ProductSort.TiesWithPast` | src/components/ProductosStock.jsx:66-98 | a product that the inserted one goes past does not join the inserted product's tie group |
| `ProductSort.ReversedSorted` | src/components/ProductosStock.jsx:82-96 | a list sorted under a comparator, read back to front, is sorted under the comparator with its arguments swapped |
| `ProductSort.DescendingReversedIsAscending` | src/components/ProductosStock.jsx:82-96 | a list sorted descending, read back to front, is sorted ascending |
| `ProductSort.SortIsStable` | src/components/ProductosStock.jsx:66 | products that tie keep their relative input order |
| `ProductSort.StableArrangementUnique` | src/components/ProductosStock.jsx:66 | two sorted arrangements of the same products with the same order inside every tie group are equal |
| `ProductSort.StableSortIsSortProducts` | src/components/ProductosStock.jsx:66 | any stable sort under this comparator gives exactly the modelled list |
| `Movements.ShownQuantity` | src/components/ProductosStock.jsx:124 | the displayed quantity is the magnitude of the recorded one, 0 when absent |
| `Movements.KindOf` | src/components/ProductosStock.jsx:125-137 | `SALIDA` is a sale out; `ENTRADA` is a sales return when the reference mentions a cancellation and a purchase otherwise; `DEVOLUCIÓN VENTA` is a return in; anything else is unknown |
| `Movements.DescribeRoundTrip` | src/components/ProductosStock.jsx:125-137 | a description reads back to the kind and quantity it was written from |
| `Movements.ShowDate` | src/components/ProductosStock.jsx:139-143 | the date is shown only when present, non-empty and accepted by the date parser; otherwise it is the invalid-date sentinel |
| `Movements.ShowReference` | src/components/ProductosStock.jsx:145 | an absent or empty reference shows as "-", any other is shown as is |
| `Movements.Classify` | src/components/ProductosStock.jsx:123-147 | the row's own columns are copied and the date, description and reference get their display forms |
| `Movements.ClassifiedDescriptionReadsBack` | src/components/ProductosStock.jsx:123-147 | a classified row's description reads back to the row's kind and quantity magnitude |
| `Movements.ClassifyAll` | src/components/ProductosStock.jsx:123 | the ledger has one line per fetched row, in the fetched order |
| `Movements.ExampleSalesOut` | src/components/ProductosStock.jsx:127-128 | a `SALIDA` of -5 shows "Sales Out: -5" |
| `Movements.ExampleSalesReturn` | src/components/ProductosStock.jsx:129-131 | an `ENTRADA` of 3 referenced "cancellation #2" shows "Sales Return: 3" |
| `Movements.ExampleSpanishCancellation` | src/components/ProductosStock.jsx:129-131 | an `ENTRADA` referenced "CANCELACIÓN" is a sales return, the case being ignored |
| `Movements.ExamplePurchasesIn` | src/components/ProductosStock.jsx:132-133 | an `ENTRADA` of 7 referenced "PO-100" shows "Purchases In: 7" |
| `Movements.ExampleReturnIn` | src/components/ProductosStock.jsx:135-136 | a `DEVOLUCIÓN VENTA` of 2 shows "Return In: 2" |
| `Movements.ExampleUnknown` | src/components/ProductosStock.jsx:125-145 | an unrecognised type shows "Unknown movement", and a missing date and reference show the sentinel and "-" |
| `StockScreen.Initial` | src/components/ProductosStock.jsx:7-16 | on mount nothing is loaded, loading is on, and the sort is by name ascending |
| `StockScreen.LoadProducts` | src/components/ProductosStock.jsx:22-34 | an error empties the product list, a null answer gives an empty list, rows replace the list; loading ends false and nothing else changes |
| `StockScreen.FailedLoadShowsNothing` | src/components/ProductosStock.jsx:26-29 | after a failed load the screen lists no product |
| `StockScreen.HandleSort` | src/components/ProductosStock.jsx:37-47 | the clicked column becomes the sort column; the same column flips direction, a new one starts ascending |
| `StockScreen.HandleSortTwiceRestores` | src/components/ProductosStock.jsx:38-40 | two clicks on the sort column give back the original state |
| `StockScreen.HandleSortNewColumnTwice` | src/components/ProductosStock.jsx:41-44 | two clicks on a new column sort by it descending |
| `StockScreen.Search` | src/components/ProductosStock.jsx:164 | typing replaces the search text and nothing else |
| `StockScreen.Visible` | src/components/ProductosStock.jsx:51-102 | the shown list is a permutation of the filtered loaded products, never holds a product that was not loaded, and is sorted when a sort column is set |
| `StockScreen.SelectProduct` | src/components/ProductosStock.jsx:105-108 | selecting sets the current product and clears the ledger before any answer arrives |
| `StockScreen.ReceiveMovements` | src/components/ProductosStock.jsx:116-151 | an error leaves the ledger empty and the modal as it was; rows become the classified ledger and open the modal |
| `StockScreen.ShowMovements` | src/components/ProductosStock.jsx:105-152 | the whole handler: the product is current, an error shows no ledger and opens nothing, success opens the modal with one line per row; the product list, search and sort are untouched |
| `StockScreen.CloseModal` | src/components/ProductosStock.jsx:260 | closing hides the modal and changes nothing else |

## Left out

- Queries to the data store, including the server-side filter by product and
  the ordering by date of the movement query: their answers are parameters.
- `console.error` and `toast.error`: side effects whose values nothing uses.
- React hooks, memoisation, markup and styling, including the image fallback.
- The interleaving of asynchronous answers: `SelectProduct` and
  `ReceiveMovements` are separate steps, but no ordering of answers from
  several selections is modelled, and the source has no stale-answer guard
  to model.
- Rows.ToNumber: numbers are integers; `parseFloat`'s fractions, exponents,
  `Infinity` and floating-point rounding are not modelled, so `"1.5"` reads
  as 1.
- Strings.LowerChar: lower-cases Basic Latin and Latin-1 Supplement capitals
  only, not the full Unicode case mapping.
- Strings.Less: compares by code point, which matches JavaScript's UTF-16
  order only inside the Basic Multilingual Plane.
- Movements.ShowDate: the date parser (`new Date`) is a parameter; its
  formatting with `toLocaleString` is display only.
- Rows.Movement: carries the id, product, type, quantity, reference and date
  of a movement row. The other columns, which `...m` copies into each ledger
  line, are not modelled, and neither `Movements.MovementView` nor
  `Movements.Classify` carries them.
- Numerals.NatToString: prints every natural number as plain digits.
  JavaScript's `String(n)` prints exponent form from 1e21 on (`"1e+21"`) and
  loses integer precision above 2^53; neither is modelled.
- Rows.Product: carries the columns the screen reads; the name, code and
  category are text or absent, so the filter's `toLowerCase` on a numeric
  name (a JavaScript error) cannot arise. Any other column name reads as
  absent.
- ProductSort.DescendingReversedIsAscending: states that a descending list
  read backwards is in ascending order. The stronger property, that the two
  sorts are exact reverses outside tie groups, is not proved.
- The search text is used as typed, without trimming, as the source does.
