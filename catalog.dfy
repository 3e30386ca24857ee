/** The product records of the catalog and the search-by-brand filter of
    the detail screen. */
module Catalog {
  import opened JsText

  /** One entry of the product collection, with the four fields the
      screen reads. `stars` is the rating as text; "NAN" means unrated. */
  datatype Product = Product(brand: string, variety: string, country: string, stars: string)

  /** One entry of the image collection. */
  datatype ImageRecord = ImageRecord(image: string)

  /** The text a query is searched in: the brand trimmed, upper-cased,
      with one space appended. It has no lower-case ASCII letter, ends in
      the space, and starts without white space unless it is that space. */
  function ItemData(p: Product): (r: string)
    ensures |r| == |Trim(p.brand)| + 1 && r[|r| - 1] == ' '
    ensures forall i :: 0 <= i < |r| - 1 ==> r[i] == UpperChar(Trim(p.brand)[i])
    ensures forall i :: 0 <= i < |r| ==> !('a' <= r[i] <= 'z')
    ensures |r| > 1 ==> !IsWhiteSpace(r[0])
  {
    Upper(Trim(p.brand)) + " "
  }

  /** The filter's test, `itemData.indexOf(textData) > -1`: it holds
      exactly when the upper-cased query occurs somewhere in the item
      data. */
  function Matches(p: Product, query: string): (b: bool)
    ensures b <==> exists k :: OccursAt(ItemData(p), Upper(query), k)
  {
    var d, n := ItemData(p), Upper(query);
    var r := IndexOf(d, n);
    assert r > -1 ==> OccursAt(d, n, r);
    assert r > -1 ==> exists k :: OccursAt(ItemData(p), Upper(query), k);
    assert r == -1 ==> forall k :: !OccursAt(d, n, k);
    r > -1
  }

  /** `r` keeps some of the elements of `s`, in their order. */
  predicate IsSubsequence<T(==)>(r: seq<T>, s: seq<T>)
  {
    if r == [] then true
    else if s == [] then false
    else (r[0] == s[0] && IsSubsequence(r[1..], s[1..])) || IsSubsequence(r, s[1..])
  }

  /** `items.filter(item => Matches(item, query))`. */
  function FilterByBrand(items: seq<Product>, query: string): (r: seq<Product>)
    ensures |r| <= |items|
    ensures IsSubsequence(r, items)
    ensures forall p :: multiset(r)[p] == if Matches(p, query) then multiset(items)[p] else 0
  {
    if items == [] then []
    else
      var rest := FilterByBrand(items[1..], query);
      assert items == [items[0]] + items[1..];
      if Matches(items[0], query) then
        assert ([items[0]] + rest)[1..] == rest;
        [items[0]] + rest
      else rest
  }

  /** One step of the filter: the first product, when it matches, followed
      by the filtered rest. */
  lemma FilterCons(items: seq<Product>, query: string)
    requires items != []
    ensures FilterByBrand(items, query) ==
      (if Matches(items[0], query) then [items[0]] else []) + FilterByBrand(items[1..], query)
  {
  }

  /** Every element of the result matches, and every matching element of
      the collection is kept. */
  lemma FilterMembership(items: seq<Product>, query: string, p: Product)
    ensures p in FilterByBrand(items, query) <==> p in items && Matches(p, query)
  {
    assert p in FilterByBrand(items, query) <==> multiset(FilterByBrand(items, query))[p] > 0;
  }

  /** With the empty query every product matches, so filtering keeps the
      whole collection in order: the empty-query branch of the screen is
      behaviourally the same as the filter. */
  lemma {:induction false} FilterEmptyQuery(items: seq<Product>)
    ensures FilterByBrand(items, "") == items
  {
    if items != [] {
      assert Upper("") == "";
      assert OccursAt(ItemData(items[0]), "", 0);
      FilterEmptyQuery(items[1..]);
    }
  }

  /** Filtering twice with the same query changes nothing the second time. */
  lemma {:induction false} FilterIdempotent(items: seq<Product>, query: string)
    ensures FilterByBrand(FilterByBrand(items, query), query) == FilterByBrand(items, query)
  {
    if items != [] {
      FilterIdempotent(items[1..], query);
      if Matches(items[0], query) {
        assert ([items[0]] + FilterByBrand(items[1..], query))[1..] == FilterByBrand(items[1..], query);
      }
    }
  }

  /** The query is compared without regard to ASCII letter case. */
  lemma QueryCaseInsensitive(p: Product, q1: string, q2: string)
    requires Upper(q1) == Upper(q2)
    ensures Matches(p, q1) == Matches(p, q2)
  {
  }

  /** A suffix of `t`, with a space appended, occurs in `t` with a space
      appended. */
  lemma SuffixWithSpaceOccurs(t: string, u: string)
    requires |u| <= |t| && t[|t| - |u|..] == u
    ensures OccursAt(t + " ", u + " ", |t| - |u|)
  {
    var k := |t| - |u|;
    assert (t + " ")[k..k + |u| + 1] == t[k..] + " ";
  }

  /** A query whose upper-case form ends `t`, with one space appended, is
      found in `t` with one space appended. */
  lemma TrailingSpaceFound(t: string, q: string)
    requires |Upper(q)| <= |t| && t[|t| - |Upper(q)|..] == Upper(q)
    ensures IndexOf(t + " ", Upper(q + " ")) > -1
  {
    var n := Upper(q + " ");
    assert n == Upper(q) + " " by {
      UpperAppend(q, " ");
      assert Upper(" ") == [UpperChar(' ')];
    }
    SuffixWithSpaceOccurs(t, Upper(q));
    assert OccursAt(t + " ", n, |t| - |Upper(q)|);
  }

  /** Because a space is appended to the trimmed brand, a query that ends
      in one space still matches a brand that ends with the rest of the
      query. */
  lemma TrailingSpaceMatches(p: Product, q: string)
    requires |Upper(q)| <= |Upper(Trim(p.brand))|
    requires Upper(Trim(p.brand))[|Upper(Trim(p.brand))| - |Upper(q)|..] == Upper(q)
    ensures Matches(p, q + " ")
  {
    TrailingSpaceFound(Upper(Trim(p.brand)), q);
  }

  /** The query is not trimmed: a query that begins with white space does not
      match a product whose trimmed brand is the rest of the query. */
  lemma LeadingSpaceDoesNotMatch(p: Product, q: string)
    requires Trim(p.brand) != []
    requires Upper(q) == " " + Upper(Trim(p.brand))
    ensures !Matches(p, q)
  {
    var d := ItemData(p);
    var n := Upper(q);
    assert |d| == |n|;
    assert !IsWhiteSpace(Trim(p.brand)[0]);
    assert d[0] != n[0];
    assert d[0..|n|] != n;
    assert !OccursAt(d, n, 0);
  }
}
