/** The search box: which products stay in the list for a search text. */
module ProductFilter {
  import opened Wrappers
  import opened Strings
  import opened Rows

  /** `(field || '')`: an absent or empty text column searches as "". */
  function OrEmpty(t: Option<string>): string {
    t.GetOr("")
  }

  /** The product's name, code or category contains the search text,
      both lower-cased. */
  predicate Matches(p: Product, search: string) {
    var q := Lower(search);
    Contains(Lower(OrEmpty(p.nombre)), q) ||
    Contains(Lower(OrEmpty(p.codigo)), q) ||
    Contains(Lower(OrEmpty(p.categoria)), q)
  }

  /** `a` is `b` with some elements dropped and the rest in their order. */
  predicate IsSubsequence<T(==)>(a: seq<T>, b: seq<T>)
    decreases |b|
  {
    if |a| == 0 then true
    else if |b| == 0 then false
    else if a[0] == b[0] then IsSubsequence(a[1..], b[1..])
    else IsSubsequence(a, b[1..])
  }

  /** The products of `ps` that match `search`, in their order. */
  function Select(ps: seq<Product>, search: string): (r: seq<Product>)
    ensures IsSubsequence(r, ps)
    ensures forall p :: p in r <==> p in ps && Matches(p, search)
    ensures forall p :: multiset(r)[p] == if Matches(p, search) then multiset(ps)[p] else 0
    decreases |ps|
  {
    if |ps| == 0 then []
    else
      assert ps == [ps[0]] + ps[1..];
      if Matches(ps[0], search) then [ps[0]] + Select(ps[1..], search)
      else Select(ps[1..], search)
  }

  /** The filter step: an empty search keeps the list as it is; otherwise
      exactly the matching products are kept, in their order. The search is
      used as typed, without trimming. */
  function Filter(ps: seq<Product>, search: string): (r: seq<Product>)
    ensures IsSubsequence(r, ps)
    ensures search == "" ==> r == ps
    ensures search != "" ==> forall p :: p in r <==> p in ps && Matches(p, search)
    ensures search != "" ==>
      forall p :: multiset(r)[p] == if Matches(p, search) then multiset(ps)[p] else 0
  {
    if search == "" then
      SubsequenceReflexive(ps);
      ps
    else Select(ps, search)
  }

  /** Every list is a subsequence of itself. */
  lemma {:induction false} SubsequenceReflexive<T>(s: seq<T>)
    ensures IsSubsequence(s, s)
    decreases |s|
  {
    if |s| > 0 { SubsequenceReflexive(s[1..]); }
  }

  /** A field's lower-cased text holds the lower-cased search at some
      position. */
  ghost predicate FieldHolds(field: Option<string>, search: string) {
    exists i :: OccursAt(Lower(OrEmpty(field)), Lower(search), i)
  }

  /** For a non-empty search, a product is kept exactly when its name, code
      or category (an absent one read as "") holds the search as a
      substring, ignoring case. */
  lemma FilterKeepsSubstringMatches(ps: seq<Product>, search: string, p: Product)
    requires search != ""
    ensures p in Filter(ps, search) <==>
      p in ps && (FieldHolds(p.nombre, search) || FieldHolds(p.codigo, search) ||
                  FieldHolds(p.categoria, search))
  {
    var q := Lower(search);
    ContainsIffOccurs(Lower(OrEmpty(p.nombre)), q);
    ContainsIffOccurs(Lower(OrEmpty(p.codigo)), q);
    ContainsIffOccurs(Lower(OrEmpty(p.categoria)), q);
  }

  /** A subsequence keeps elements only of the list it was taken from. */
  lemma {:induction false} SubsequenceMembers<T>(a: seq<T>, b: seq<T>, x: T)
    requires IsSubsequence(a, b) && x in a
    ensures x in b
    decreases |b|
  {
    if a[0] == b[0] {
      if x != a[0] { SubsequenceMembers(a[1..], b[1..], x); }
    } else {
      SubsequenceMembers(a, b[1..], x);
    }
  }

  /** A subsequence is never longer than the list it was taken from. */
  lemma {:induction false} SubsequenceLength<T>(a: seq<T>, b: seq<T>)
    requires IsSubsequence(a, b)
    ensures |a| <= |b|
    decreases |b|
  {
    if |a| > 0 {
      if a[0] == b[0] { SubsequenceLength(a[1..], b[1..]); }
      else { SubsequenceLength(a, b[1..]); }
    }
  }
}
