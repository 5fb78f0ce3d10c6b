/** Clicking a column header orders the list by that column: the comparator
    handed to `Array.prototype.sort`, and the sort itself. */
module ProductSort {
  import opened Strings
  import opened Rows

  datatype Direction = Asc | Desc

  /** The columns compared as numbers; every other column compares as
      lower-cased text. */
  predicate IsNumericColumn(column: string) {
    column == "stock" || column == "promocion" || column == "precio_normal" ||
    column == "costo_final_usd" || column == "costo_final_mxn"
  }

  /** `less` in the given direction: -1 when ascending, 1 when descending. */
  function Before(dir: Direction): int {
    if dir == Asc then -1 else 1
  }

  /** The comparator on two column values. An absent value goes after a
      present one in ascending order and before it in descending order, two
      absent values tie; present values compare by their coerced number in a
      numeric column and by their lower-cased text otherwise. */
  function CompareValues(numeric: bool, dir: Direction, a: Value, b: Value): int {
    if a.Null? && b.Null? then 0
    else if a.Null? then -Before(dir)
    else if b.Null? then Before(dir)
    else if numeric then
      var x := ToNumber(a);
      var y := ToNumber(b);
      if x < y then Before(dir) else if x > y then -Before(dir) else 0
    else
      var s := Lower(ToText(a));
      var t := Lower(ToText(b));
      if Less(s, t) then Before(dir) else if Less(t, s) then -Before(dir) else 0
  }

  /** The comparator on two products for a sort column. */
  function Compare(column: string, dir: Direction, a: Product, b: Product): (c: int)
    ensures c == -1 || c == 0 || c == 1
  {
    CompareValues(IsNumericColumn(column), dir, Field(a, column), Field(b, column))
  }

  /** The descending comparator is the ascending one negated. */
  lemma DescendingNegatesAscending(column: string, a: Product, b: Product)
    ensures Compare(column, Desc, a, b) == -Compare(column, Asc, a, b)
  {
  }

  /** Swapping the arguments negates the result, and a product ties with
      itself. */
  lemma CompareAntisymmetric(column: string, dir: Direction, a: Product, b: Product)
    ensures Compare(column, dir, a, b) == -Compare(column, dir, b, a)
    ensures Compare(column, dir, a, a) == 0
  {
    var va, vb := Field(a, column), Field(b, column);
    if !va.Null? && !vb.Null? && !IsNumericColumn(column) {
      LessTrichotomy(Lower(ToText(va)), Lower(ToText(vb)));
    }
    if !va.Null? && !IsNumericColumn(column) {
      LessIrreflexive(Lower(ToText(va)));
    }
  }

  /** In ascending order an absent value goes after every present one; in
      descending order it goes before every present one. */
  lemma AbsentValuesPlacement(column: string, a: Product, b: Product)
    requires Field(a, column).Null? && !Field(b, column).Null?
    ensures Compare(column, Asc, a, b) == 1 && Compare(column, Asc, b, a) == -1
    ensures Compare(column, Desc, a, b) == -1 && Compare(column, Desc, b, a) == 1
  {
  }

  /** Two absent values tie in either direction. */
  lemma AbsentValuesTie(column: string, dir: Direction, a: Product, b: Product)
    requires Field(a, column).Null? && Field(b, column).Null?
    ensures Compare(column, dir, a, b) == 0
  {
  }

  /** In a numeric column two present values are ordered by their coerced
      numbers, with text that does not parse counting as 0. */
  lemma NumericColumnsCompareNumbers(column: string, a: Product, b: Product)
    requires IsNumericColumn(column)
    requires !Field(a, column).Null? && !Field(b, column).Null?
    ensures Compare(column, Asc, a, b) < 0 <==> ToNumber(Field(a, column)) < ToNumber(Field(b, column))
    ensures Compare(column, Asc, a, b) == 0 <==> ToNumber(Field(a, column)) == ToNumber(Field(b, column))
  {
  }

  /** In any other column two present values are ordered by their
      lower-cased text. */
  lemma TextColumnsCompareLowerCase(column: string, a: Product, b: Product)
    requires !IsNumericColumn(column)
    requires !Field(a, column).Null? && !Field(b, column).Null?
    ensures Compare(column, Asc, a, b) < 0 <==>
      Less(Lower(ToText(Field(a, column))), Lower(ToText(Field(b, column))))
    ensures Compare(column, Asc, a, b) == 0 <==>
      Lower(ToText(Field(a, column))) == Lower(ToText(Field(b, column)))
  {
    var s, t := Lower(ToText(Field(a, column))), Lower(ToText(Field(b, column)));
    LessTrichotomy(s, t);
    if s == t { LessIrreflexive(s); }
  }

  /** The comparator is transitive: it orders products as a total preorder. */
  lemma CompareTransitive(column: string, dir: Direction, a: Product, b: Product, c: Product)
    requires Compare(column, dir, a, b) <= 0 && Compare(column, dir, b, c) <= 0
    ensures Compare(column, dir, a, c) <= 0
  {
    var va, vb, vc := Field(a, column), Field(b, column), Field(c, column);
    if !va.Null? && !vb.Null? && !vc.Null? && !IsNumericColumn(column) {
      var s, t, u := Lower(ToText(va)), Lower(ToText(vb)), Lower(ToText(vc));
      LessTrichotomy(s, t);
      LessTrichotomy(t, u);
      LessTrichotomy(s, u);
      if Less(s, t) && Less(t, u) { LessTransitive(s, t, u); }
      if Less(u, t) && Less(t, s) { LessTransitive(u, t, s); }
    }
  }

  /** Ties are an equivalence: two products tying with a third tie. */
  lemma TieTransitive(column: string, dir: Direction, a: Product, b: Product, c: Product)
    requires Compare(column, dir, a, b) == 0 && Compare(column, dir, b, c) == 0
    ensures Compare(column, dir, a, c) == 0
  {
    CompareAntisymmetric(column, dir, a, b);
    CompareAntisymmetric(column, dir, b, c);
    CompareAntisymmetric(column, dir, a, c);
    CompareTransitive(column, dir, a, b, c);
    CompareTransitive(column, dir, c, b, a);
  }

  /** The comparator for a sort column and direction, as handed to `sort`. */
  function Order(column: string, dir: Direction): (Product, Product) -> int {
    (a: Product, b: Product) => Compare(column, dir, a, b)
  }

  /** Swapping the arguments of `cmp` negates its answer. */
  ghost predicate Antisymmetric(cmp: (Product, Product) -> int) {
    forall a, b :: cmp(a, b) == -cmp(b, a)
  }

  /** `a`, `b`, `c` are in order under `cmp`, pair by pair. */
  ghost predicate InOrder(cmp: (Product, Product) -> int, a: Product, b: Product, c: Product) {
    cmp(a, b) <= 0 && cmp(b, c) <= 0
  }

  /** `cmp` orders products as a total preorder. Transitivity is used by
      naming the chain it applies to. */
  ghost predicate Preorder(cmp: (Product, Product) -> int) {
    Antisymmetric(cmp) &&
    forall a, b, c {:trigger InOrder(cmp, a, b, c)} :: InOrder(cmp, a, b, c) ==> cmp(a, c) <= 0
  }

  /** The product comparator is a total preorder for every column and
      direction. */
  lemma OrderIsPreorder(column: string, dir: Direction)
    ensures Preorder(Order(column, dir))
  {
    var cmp := Order(column, dir);
    forall a, b ensures cmp(a, b) == -cmp(b, a) {
      CompareAntisymmetric(column, dir, a, b);
    }
    forall a, b, c | InOrder(cmp, a, b, c) ensures cmp(a, c) <= 0 {
      CompareTransitive(column, dir, a, b, c);
    }
  }

  /** Every adjacent pair compares at most 0 under `cmp`. */
  predicate SortedBy(cmp: (Product, Product) -> int, s: seq<Product>) {
    forall i :: 0 < i < |s| ==> cmp(s[i - 1], s[i]) <= 0
  }

  /** Every adjacent pair compares at most 0 for the sort column. */
  predicate Sorted(column: string, dir: Direction, s: seq<Product>) {
    SortedBy(Order(column, dir), s)
  }

  /** `x` placed before the first element it does not compare after. */
  function Insert(cmp: (Product, Product) -> int, x: Product, s: seq<Product>): (r: seq<Product>)
    requires Antisymmetric(cmp) && SortedBy(cmp, s)
    ensures SortedBy(cmp, r)
    ensures multiset(r) == multiset(s) + multiset{x}
    ensures |r| > 0 && (r[0] == x || (|s| > 0 && r[0] == s[0]))
    decreases |s|
  {
    if |s| == 0 then [x]
    else if cmp(x, s[0]) <= 0 then [x] + s
    else
      SortedTail(cmp, s);
      var rest := Insert(cmp, x, s[1..]);
      assert s == [s[0]] + s[1..];
      [s[0]] + rest
  }

  /** A stable insertion sort under `cmp`. */
  function SortBy(cmp: (Product, Product) -> int, s: seq<Product>): (r: seq<Product>)
    requires Antisymmetric(cmp)
    ensures SortedBy(cmp, r)
    ensures multiset(r) == multiset(s)
    decreases |s|
  {
    if |s| == 0 then []
    else
      assert s == [s[0]] + s[1..];
      Insert(cmp, s[0], SortBy(cmp, s[1..]))
  }

  /** The sort of the product list by a column and direction. */
  function SortProducts(column: string, dir: Direction, s: seq<Product>): (r: seq<Product>)
    ensures Sorted(column, dir, r)
    ensures multiset(r) == multiset(s)
  {
    OrderIsPreorder(column, dir);
    SortBy(Order(column, dir), s)
  }

  /** The sort step: with no sort column the list is left as it is. */
  function Arrange(column: string, dir: Direction, s: seq<Product>): (r: seq<Product>)
    ensures multiset(r) == multiset(s)
    ensures column != "" ==> Sorted(column, dir, r)
    ensures column == "" ==> r == s
  {
    if column == "" then s else SortProducts(column, dir, s)
  }

  /** A list whose adjacent pairs are in order is in order everywhere. */
  lemma {:induction false} SortedEverywhere(cmp: (Product, Product) -> int, s: seq<Product>, i: int, j: int)
    requires Preorder(cmp) && SortedBy(cmp, s)
    requires 0 <= i < j < |s|
    ensures cmp(s[i], s[j]) <= 0
    decreases j - i
  {
    if j > i + 1 {
      SortedEverywhere(cmp, s, i, j - 1);
      assert InOrder(cmp, s[i], s[j - 1], s[j]);
    }
  }

  /** In a sorted ascending list the products without a value for the
      column all come after those with one. */
  lemma AscendingPutsAbsentLast(column: string, s: seq<Product>, i: int, j: int)
    requires Sorted(column, Asc, s)
    requires 0 <= i < j < |s| && Field(s[i], column).Null?
    ensures Field(s[j], column).Null?
  {
    OrderIsPreorder(column, Asc);
    SortedEverywhere(Order(column, Asc), s, i, j);
  }

  /** In a sorted descending list the products without a value for the
      column all come first. */
  lemma DescendingPutsAbsentFirst(column: string, s: seq<Product>, i: int, j: int)
    requires Sorted(column, Desc, s)
    requires 0 <= i < j < |s| && Field(s[j], column).Null?
    ensures Field(s[i], column).Null?
  {
    OrderIsPreorder(column, Desc);
    SortedEverywhere(Order(column, Desc), s, i, j);
  }

  /** `s` read back to front. */
  function Reverse(s: seq<Product>): (r: seq<Product>)
    ensures |r| == |s| && forall i :: 0 <= i < |s| ==> r[i] == s[|s| - 1 - i]
  {
    seq(|s|, i requires 0 <= i < |s| => s[|s| - 1 - i])
  }

  /** A list sorted under `cmp`, read back to front, is sorted under the
      comparator that answers `cmp` with its arguments swapped. */
  lemma ReversedSorted(cmp: (Product, Product) -> int, rev: (Product, Product) -> int,
                       s: seq<Product>)
    requires SortedBy(cmp, s)
    requires forall a, b :: rev(b, a) == cmp(a, b)
    ensures SortedBy(rev, Reverse(s))
  {
    var r := Reverse(s);
    forall i | 0 < i < |r| ensures rev(r[i - 1], r[i]) <= 0 {
      var j := |s| - 1 - i;
      assert r[i - 1] == s[j + 1] && r[i] == s[j];
      assert cmp(s[j], s[j + 1]) <= 0;
    }
  }

  /** A list sorted in descending order, read back to front, is sorted in
      ascending order. */
  lemma DescendingReversedIsAscending(column: string, s: seq<Product>)
    requires Sorted(column, Desc, s)
    ensures Sorted(column, Asc, Reverse(s))
  {
    forall a, b ensures Order(column, Asc)(b, a) == Order(column, Desc)(a, b) {
      DescendingNegatesAscending(column, a, b);
      CompareAntisymmetric(column, Asc, a, b);
    }
    ReversedSorted(Order(column, Desc), Order(column, Asc), s);
  }

  /** The products of `s` that tie with `k` under `cmp`, in their order. */
  function TiesWith(cmp: (Product, Product) -> int, k: Product, s: seq<Product>): seq<Product>
    decreases |s|
  {
    if |s| == 0 then []
    else if cmp(s[0], k) == 0 then [s[0]] + TiesWith(cmp, k, s[1..])
    else TiesWith(cmp, k, s[1..])
  }

  /** The ties of a list with a first element. */
  lemma TiesWithCons(cmp: (Product, Product) -> int, k: Product, y: Product, t: seq<Product>)
    ensures TiesWith(cmp, k, [y] + t) == (if cmp(y, k) == 0 then [y] else []) + TiesWith(cmp, k, t)
  {
    assert ([y] + t)[1..] == t;
  }

  /** A product strictly before `x` cannot tie with what `x` ties with. */
  lemma TieExcludesStrict(cmp: (Product, Product) -> int, x: Product, y: Product, k: Product)
    requires Preorder(cmp)
    requires cmp(x, y) > 0 && cmp(x, k) == 0
    ensures cmp(y, k) != 0
  {
    assert cmp(y, k) == -cmp(k, y);
    assert InOrder(cmp, x, k, y) ==> cmp(x, y) <= 0;
  }

  /** The tail of a sorted list is sorted. */
  lemma SortedTail(cmp: (Product, Product) -> int, s: seq<Product>)
    requires |s| > 0 && SortedBy(cmp, s)
    ensures SortedBy(cmp, s[1..])
  {
    forall i | 0 < i < |s| - 1 ensures cmp(s[1..][i - 1], s[1..][i]) <= 0 {
      assert s[1..][i - 1] == s[i] && s[1..][i] == s[i + 1];
    }
  }

  /** Inserting past a first element that `x` compares after. */
  lemma InsertPast(cmp: (Product, Product) -> int, x: Product, s: seq<Product>)
    requires Antisymmetric(cmp) && SortedBy(cmp, s)
    requires |s| > 0 && cmp(x, s[0]) > 0
    ensures SortedBy(cmp, s[1..])
    ensures Insert(cmp, x, s) == [s[0]] + Insert(cmp, x, s[1..])
  {
    SortedTail(cmp, s);
  }

  /** Inserting `x` puts it ahead of every product it ties with. */
  lemma {:induction false} TiesWithInsert(cmp: (Product, Product) -> int, k: Product, x: Product, s: seq<Product>)
    requires Preorder(cmp) && SortedBy(cmp, s)
    ensures TiesWith(cmp, k, Insert(cmp, x, s)) ==
      (if cmp(x, k) == 0 then [x] else []) + TiesWith(cmp, k, s)
    decreases |s|
  {
    if |s| == 0 {
      TiesWithCons(cmp, k, x, []);
    } else if cmp(x, s[0]) <= 0 {
      TiesWithCons(cmp, k, x, s);
    } else {
      InsertPast(cmp, x, s);
      TiesWithInsert(cmp, k, x, s[1..]);
      assert s == [s[0]] + s[1..];
      TiesWithPast(cmp, k, x, s[0], Insert(cmp, x, s[1..]), s[1..]);
    }
  }

  /** Putting a product `y` that `x` compares after in front of two lists
      keeps their tie groups related as they were: `y` cannot tie with
      what `x` ties with. */
  lemma TiesWithPast(cmp: (Product, Product) -> int, k: Product, x: Product, y: Product,
                     rest: seq<Product>, tail: seq<Product>)
    requires Preorder(cmp) && cmp(x, y) > 0
    requires TiesWith(cmp, k, rest) == (if cmp(x, k) == 0 then [x] else []) + TiesWith(cmp, k, tail)
    ensures TiesWith(cmp, k, [y] + rest) ==
      (if cmp(x, k) == 0 then [x] else []) + TiesWith(cmp, k, [y] + tail)
  {
    TiesWithCons(cmp, k, y, rest);
    TiesWithCons(cmp, k, y, tail);
    if cmp(x, k) == 0 {
      TieExcludesStrict(cmp, x, y, k);
      assert TiesWith(cmp, k, [y] + rest) == TiesWith(cmp, k, rest);
      assert TiesWith(cmp, k, [y] + tail) == TiesWith(cmp, k, tail);
    } else {
      assert TiesWith(cmp, k, rest) == TiesWith(cmp, k, tail);
    }
  }

  /** The sort is stable: products that tie keep their relative order. */
  lemma {:induction false} SortIsStable(cmp: (Product, Product) -> int, k: Product, s: seq<Product>)
    requires Preorder(cmp)
    ensures TiesWith(cmp, k, SortBy(cmp, s)) == TiesWith(cmp, k, s)
    decreases |s|
  {
    if |s| > 0 {
      SortIsStable(cmp, k, s[1..]);
      TiesWithInsert(cmp, k, s[0], SortBy(cmp, s[1..]));
    }
  }

  /** The head of a sorted list compares at most 0 with every element. */
  lemma HeadIsLeast(cmp: (Product, Product) -> int, s: seq<Product>, x: Product)
    requires Preorder(cmp) && SortedBy(cmp, s) && x in s
    ensures cmp(s[0], x) <= 0
  {
    var j :| 0 <= j < |s| && s[j] == x;
    if j > 0 {
      SortedEverywhere(cmp, s, 0, j);
    }
  }

  /** Two sorted arrangements of the same products that order the ties
      of their first element alike start with the same product. */
  lemma SameHead(cmp: (Product, Product) -> int, a: seq<Product>, b: seq<Product>)
    requires Preorder(cmp) && SortedBy(cmp, a) && SortedBy(cmp, b)
    requires |a| > 0 && multiset(a) == multiset(b)
    requires TiesWith(cmp, a[0], a) == TiesWith(cmp, a[0], b)
    ensures |b| > 0 && a[0] == b[0]
  {
    var x := a[0];
    assert x in multiset(b);
    var y := b[0];
    assert y in multiset(a);
    HeadIsLeast(cmp, a, y);
    HeadIsLeast(cmp, b, x);
    assert TiesWith(cmp, x, a)[0] == x;
    assert TiesWith(cmp, x, b)[0] == y;
  }

  /** Dropping one shared first product keeps the tie groups equal. */
  lemma TiesWithTail(cmp: (Product, Product) -> int, a: seq<Product>, b: seq<Product>)
    requires |a| > 0 && |b| > 0 && a[0] == b[0]
    requires forall k :: TiesWith(cmp, k, a) == TiesWith(cmp, k, b)
    ensures forall k :: TiesWith(cmp, k, a[1..]) == TiesWith(cmp, k, b[1..])
  {
    forall k ensures TiesWith(cmp, k, a[1..]) == TiesWith(cmp, k, b[1..]) {
      var ta, tb := TiesWith(cmp, k, a), TiesWith(cmp, k, b);
      assert ta == tb;
      if cmp(a[0], k) == 0 {
        assert ta[1..] == TiesWith(cmp, k, a[1..]);
        assert tb[1..] == TiesWith(cmp, k, b[1..]);
      }
    }
  }

  /** Two lists with the same elements and the same first element have
      the same remaining elements. */
  lemma MultisetTail(a: seq<Product>, b: seq<Product>)
    requires |a| > 0 && |b| > 0 && a[0] == b[0] && multiset(a) == multiset(b)
    ensures multiset(a[1..]) == multiset(b[1..])
  {
    assert a == [a[0]] + a[1..] && b == [b[0]] + b[1..];
    assert multiset(a) == multiset{a[0]} + multiset(a[1..]);
    assert multiset(b) == multiset{a[0]} + multiset(b[1..]);
    assert multiset(a[1..]) == multiset(a) - multiset{a[0]};
    assert multiset(b[1..]) == multiset(b) - multiset{a[0]};
  }

  /** Two sorted arrangements of the same products that keep every tie
      group in the same order are the same list. */
  lemma {:induction false} StableArrangementUnique(cmp: (Product, Product) -> int, a: seq<Product>, b: seq<Product>)
    requires Preorder(cmp) && SortedBy(cmp, a) && SortedBy(cmp, b)
    requires multiset(a) == multiset(b)
    requires forall k :: TiesWith(cmp, k, a) == TiesWith(cmp, k, b)
    ensures a == b
    decreases |a|
  {
    assert |a| == |multiset(a)| == |multiset(b)| == |b|;
    if |a| > 0 {
      SameHead(cmp, a, b);
      MultisetTail(a, b);
      TiesWithTail(cmp, a, b);
      StableArrangementUnique(cmp, a[1..], b[1..]);
    }
  }

  /** Any stable sort under the column's comparator, such as the one
      JavaScript engines have been required to perform since ECMAScript 2019,
      yields exactly `SortProducts`. */
  lemma StableSortIsSortProducts(column: string, dir: Direction, s: seq<Product>, r: seq<Product>)
    requires Sorted(column, dir, r) && multiset(r) == multiset(s)
    requires forall k :: TiesWith(Order(column, dir), k, r) == TiesWith(Order(column, dir), k, s)
    ensures r == SortProducts(column, dir, s)
  {
    var cmp := Order(column, dir);
    OrderIsPreorder(column, dir);
    var sorted := SortProducts(column, dir, s);
    forall k ensures TiesWith(cmp, k, r) == TiesWith(cmp, k, sorted) {
      SortIsStable(cmp, k, s);
    }
    StableArrangementUnique(cmp, r, sorted);
  }
}
