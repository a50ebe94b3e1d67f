/** The product list the page shows: the catalogue filtered by the query's constraints and
    sorted by base price. */
module Listing {
  import opened Catalog
  import opened Pricing

  // ---------------------------------------------------------------------------
  // Case-insensitive substring match

  /** Lower-case mapping for Latin A-Z, Cyrillic А-Я and Ё; other characters are unchanged. */
  function LowerChar(c: char): char
  {
    if 'A' <= c <= 'Z' || '\U{0410}' <= c <= '\U{042F}' then (c as int + 32) as char
    else if c == '\U{0401}' then '\U{0451}'
    else c
  }

  /** `s.toLowerCase()`, character by character. */
  function Lower(s: string): string
  {
    seq(|s|, i requires 0 <= i < |s| => LowerChar(s[i]))
  }

  /** `part` occurs in `text` starting at position `i`. */
  predicate OccursAt(text: string, part: string, i: int)
  {
    0 <= i <= |text| - |part| && text[i..i + |part|] == part
  }

  /** `text.includes(part)`: `part` occurs in `text` at some position. */
  predicate Includes(text: string, part: string)
  {
    exists i :: 0 <= i <= |text| && OccursAt(text, part, i)
  }

  // ---------------------------------------------------------------------------
  // The filter

  /** The constraints read from the query string, already defaulted. */
  datatype FilterSpec = FilterSpec(
    search: string,
    minPrice: int, maxPrice: int,
    minRam: int, maxRam: int,
    minStorage: int, maxStorage: int,
    manufacturers: seq<string>,
    discounts: bool,
    priceSort: string)

  /** The first filter: name, inclusive price, ram and storage ranges, manufacturer. */
  predicate Matches(spec: FilterSpec, p: Product)
  {
    Includes(Lower(p.name), Lower(spec.search)) &&
    spec.minPrice <= p.price <= spec.maxPrice &&
    spec.minRam <= p.ram <= spec.maxRam &&
    spec.minStorage <= p.storage <= spec.maxStorage &&
    p.manufacturer in spec.manufacturers
  }

  /** Everything a shown product satisfies: the first filter, and a truthy discount when the
      discounts flag is set. */
  predicate Selected(spec: FilterSpec, p: Product)
  {
    Matches(spec, p) && (spec.discounts ==> HasDiscount(p))
  }

  /** `a` is `b` with some elements dropped, the rest in the same order. */
  predicate IsSubsequence(a: seq<Product>, b: seq<Product>)
    decreases |b|
  {
    a == [] ||
    (b != [] && ((a[0] == b[0] && IsSubsequence(a[1..], b[1..])) || IsSubsequence(a, b[1..])))
  }

  /** `Array.prototype.filter`: the elements that `keep` accepts, in order. */
  function Filter(s: seq<Product>, keep: Product -> bool): (r: seq<Product>)
    ensures forall x :: x in r <==> x in s && keep(x)
    ensures multiset(r) <= multiset(s)
    ensures IsSubsequence(r, s)
    ensures forall x :: multiset(r)[x] == if keep(x) then multiset(s)[x] else 0
    decreases |s|
  {
    if s == [] then []
    else if keep(s[0]) then
      var rest := Filter(s[1..], keep);
      assert ([s[0]] + rest)[1..] == rest;
      assert s == [s[0]] + s[1..];
      [s[0]] + rest
    else
      assert s == [s[0]] + s[1..];
      Filter(s[1..], keep)
  }

  /** Two filters in a row keep what their conjunction keeps. */
  lemma {:induction false} FilterTwice(s: seq<Product>, f: Product -> bool, g: Product -> bool, both: Product -> bool)
    requires forall x :: both(x) == (f(x) && g(x))
    ensures Filter(Filter(s, f), g) == Filter(s, both)
    decreases |s|
  {
    if s != [] {
      FilterTwice(s[1..], f, g, both);
      if f(s[0]) {
        var rest := Filter(s[1..], f);
        assert ([s[0]] + rest)[1..] == rest;
      }
    }
  }

  /** The products the filters keep, in catalogue order. */
  function SelectedProducts(all: seq<Product>, spec: FilterSpec): seq<Product>
  {
    Filter(all, p => Selected(spec, p))
  }

  /** The source's two `filter` calls keep exactly the products that satisfy `Selected`. */
  lemma FilteredIsSelected(all: seq<Product>, spec: FilterSpec)
    ensures (if spec.discounts then Filter(Filter(all, p => Matches(spec, p)), HasDiscount)
             else Filter(all, p => Matches(spec, p))) == SelectedProducts(all, spec)
  {
    var m := p => Matches(spec, p);
    var sel := p => Selected(spec, p);
    if spec.discounts {
      FilterTwice(all, m, HasDiscount, sel);
    } else {
      FilterSame(all, m, sel);
    }
  }

  /** Filters that agree everywhere keep the same elements. */
  lemma {:induction false} FilterSame(s: seq<Product>, f: Product -> bool, g: Product -> bool)
    requires forall x :: f(x) == g(x)
    ensures Filter(s, f) == Filter(s, g)
    decreases |s|
  {
    if s != [] {
      FilterSame(s[1..], f, g);
    }
  }

  // ---------------------------------------------------------------------------
  // The sort

  /** `a` may come before `b`: the comparator `a.price - b.price` (ascending) or
      `b.price - a.price` (descending) is not positive. */
  predicate Precedes(a: Product, b: Product, ascending: bool)
  {
    if ascending then a.price <= b.price else b.price <= a.price
  }

  predicate SortedBy(s: seq<Product>, ascending: bool)
  {
    forall i, j :: 0 <= i < j < |s| ==> Precedes(s[i], s[j], ascending)
  }

  /** An element that may precede every element of a sorted list may head it. */
  lemma SortedCons(x: Product, s: seq<Product>, ascending: bool)
    requires SortedBy(s, ascending)
    requires forall i :: 0 <= i < |s| ==> Precedes(x, s[i], ascending)
    ensures SortedBy([x] + s, ascending)
  {
    var r := [x] + s;
    forall i, j | 0 <= i < j < |r| ensures Precedes(r[i], r[j], ascending) {
      assert r[j] == s[j - 1];
      if i > 0 { assert r[i] == s[i - 1]; }
    }
  }

  /** Inserts `p` before the first element it may precede. */
  function Insert(p: Product, s: seq<Product>, ascending: bool): (r: seq<Product>)
    requires SortedBy(s, ascending)
    ensures SortedBy(r, ascending)
    ensures multiset(r) == multiset(s) + multiset{p}
    decreases |s|
  {
    if s == [] then [p]
    else if Precedes(p, s[0], ascending) then
      SortedCons(p, s, ascending);
      [p] + s
    else
      var rest := Insert(p, s[1..], ascending);
      assert s == [s[0]] + s[1..];
      InsertHeadPrecedes(p, s, rest, ascending);
      SortedCons(s[0], rest, ascending);
      [s[0]] + rest
  }

  /** The head of a sorted list that `p` may not precede may precede every element of
      `p` inserted into its tail. */
  lemma InsertHeadPrecedes(p: Product, s: seq<Product>, rest: seq<Product>, ascending: bool)
    requires s != [] && SortedBy(s, ascending) && !Precedes(p, s[0], ascending)
    requires multiset(rest) == multiset(s[1..]) + multiset{p}
    ensures forall i :: 0 <= i < |rest| ==> Precedes(s[0], rest[i], ascending)
  {
    forall i | 0 <= i < |rest|
      ensures Precedes(s[0], rest[i], ascending)
    {
      assert rest[i] in multiset(rest);
      if rest[i] != p {
        assert rest[i] in multiset(s[1..]);
        var k :| 0 <= k < |s| - 1 && s[1..][k] == rest[i];
        assert s[k + 1] == rest[i];
      }
    }
  }

  /** `sort` with the price comparator: stable insertion by base price. */
  function SortByPrice(s: seq<Product>, ascending: bool): (r: seq<Product>)
    ensures SortedBy(r, ascending)
    ensures multiset(r) == multiset(s)
    decreases |s|
  {
    if s == [] then []
    else
      assert s == [s[0]] + s[1..];
      Insert(s[0], SortByPrice(s[1..], ascending), ascending)
  }

  // ---------------------------------------------------------------------------
  // The pipeline

  /** The list `render` shows: filter, optional discount filter, sort on base price. */
  function Visible(all: seq<Product>, spec: FilterSpec): seq<Product>
  {
    var matching := Filter(all, p => Matches(spec, p));
    var shown := if spec.discounts then Filter(matching, HasDiscount) else matching;
    SortByPrice(shown, spec.priceSort == "ascending")
  }

  /** The shown list is a permutation of a subsequence of the catalogue; it holds exactly the
      catalogue products that pass every filter; it is ordered by base price, ascending
      exactly when the sort is "ascending". */
  lemma VisibleSpec(all: seq<Product>, spec: FilterSpec)
    ensures IsSubsequence(SelectedProducts(all, spec), all)
    ensures multiset(Visible(all, spec)) == multiset(SelectedProducts(all, spec))
    ensures forall p :: p in Visible(all, spec) <==> p in all && Selected(spec, p)
    ensures SortedBy(Visible(all, spec), spec.priceSort == "ascending")
  {
    FilteredIsSelected(all, spec);
    var v := Visible(all, spec);
    var sel := SelectedProducts(all, spec);
    assert multiset(v) == multiset(sel);
    forall p ensures p in v <==> p in sel {
      assert p in v <==> p in multiset(v);
      assert p in sel <==> p in multiset(sel);
    }
  }

  /** An empty search matches every name. */
  lemma EmptySearchMatchesAll(name: string)
    ensures Includes(Lower(name), Lower(""))
  {
    assert OccursAt(Lower(name), Lower(""), 0);
  }
}
