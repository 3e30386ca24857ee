/** The detail screen's list controller: the full product collection, the
    displayed list derived from it, the search text and the loading flag,
    with the handlers that change them. */
module Screen {
  import opened Wrappers
  import opened Catalog
  import opened RatingOrder

  /** What a row hands to the rating widget as its default rating: the
      number 0 for the sentinel, the rating text otherwise. */
  datatype DefaultRating = Zero | Text(stars: string)

  /** `item?.Stars == 'NAN' ? 0 : item?.Stars`. The comparison is exact:
      only the upper-case sentinel is read as no rating. */
  function RowRating(p: Product): (r: DefaultRating)
    ensures r == Zero <==> p.stars == "NAN"
    ensures r.Text? ==> r.stars == p.stars
  {
    if p.stars == "NAN" then Zero else Text(p.stars)
  }

  /** The caption under the empty-list illustration. `None` when the
      displayed list has rows, so that no empty-list component is shown. */
  function EmptyCaption(isLoading: bool, shown: seq<Product>): (c: Option<string>)
    ensures c.Some? <==> shown == []
    ensures c == Some("Fetching Items") <==> shown == [] && isLoading
    ensures c == Some("No Items Found") <==> shown == [] && !isLoading
  {
    if shown != [] then None
    else if isLoading then Some("Fetching Items")
    else Some("No Items Found")
  }

  /** The address a row's image cell gets: the image at the index drawn at
      random, which is in range whenever there are images, and 0 when there
      are none. With no images the address is undefined. The pick does not
      depend on the row's product. */
  function RowImageUri(images: seq<ImageRecord>, pick: nat): (u: Option<string>)
    requires images != [] ==> pick < |images|
    requires images == [] ==> pick == 0
    ensures u == None <==> images == []
    ensures u.Some? ==> exists k :: 0 <= k < |images| && u.value == images[k].image
  {
    if pick < |images| then Some(images[pick].image) else None
  }

  class DetailScreen {
    var isLoading: bool
    /** The product collection as last fetched. */
    var noodleData: seq<Product>
    /** The list the screen displays. */
    var filterNoodleData: seq<Product>
    var noodleImageData: seq<ImageRecord>
    var searchQuery: string

    /** Every displayed product comes from the full collection, at most as
        many times as it occurs there. */
    ghost predicate DrawnFromFull()
      reads this
    {
      multiset(filterNoodleData) <= multiset(noodleData)
    }

    /** The caption the empty list shows now: none while rows are
        displayed, otherwise chosen by the loading flag. */
    function Caption(): (c: Option<string>)
      reads this
      ensures c.Some? <==> filterNoodleData == []
      ensures c == Some("Fetching Items") <==> filterNoodleData == [] && isLoading
      ensures c == Some("No Items Found") <==> filterNoodleData == [] && !isLoading
    {
      EmptyCaption(isLoading, filterNoodleData)
    }

    /** A freshly mounted screen: loading, with nothing fetched yet. */
    constructor ()
      ensures isLoading && noodleData == [] && filterNoodleData == []
      ensures noodleImageData == [] && searchQuery == ""
      ensures DrawnFromFull()
    {
      isLoading := true;
      noodleData := [];
      filterNoodleData := [];
      noodleImageData := [];
      searchQuery := "";
    }

    /** `onChangeSearch`: records the query and recomputes the displayed
        list from the full collection, discarding any earlier sort. */
    method OnChangeSearch(query: string)
      modifies this
      ensures searchQuery == query
      ensures query == "" ==> filterNoodleData == noodleData
      ensures filterNoodleData == FilterByBrand(noodleData, query)
      ensures noodleData == old(noodleData) && noodleImageData == old(noodleImageData)
      ensures isLoading == old(isLoading)
      ensures DrawnFromFull()
    {
      searchQuery := query;
      if query != "" {
        filterNoodleData := FilterByBrand(noodleData, query);
      } else {
        filterNoodleData := noodleData;
        FilterEmptyQuery(noodleData);
      }
      FilteredIsDrawn(noodleData, query);
    }

    /** The two sort handlers: copy the displayed list, sort the copy in
        place with the comparator for `order`, display the copy. */
    method SortBy(order: Order)
      modifies this
      ensures AdmissibleSort(order, old(filterNoodleData), filterNoodleData)
      ensures !isLoading
      ensures noodleData == old(noodleData) && noodleImageData == old(noodleImageData)
      ensures searchQuery == old(searchQuery)
      ensures old(DrawnFromFull()) ==> DrawnFromFull()
    {
      isLoading := true;
      var shown := filterNoodleData;
      var temp := new Product[|shown|](i requires 0 <= i < |shown| => shown[i]);
      assert temp[..] == shown;
      SortInPlace(temp, order);
      filterNoodleData := temp[..];
      isLoading := false;
    }

    /** `sortByAscending`. */
    method SortAscending()
      modifies this
      ensures AdmissibleSort(Ascending, old(filterNoodleData), filterNoodleData)
      ensures !isLoading
      ensures noodleData == old(noodleData) && noodleImageData == old(noodleImageData)
      ensures searchQuery == old(searchQuery)
      ensures old(DrawnFromFull()) ==> DrawnFromFull()
    {
      SortBy(Ascending);
    }

    /** `sortByDescending`. */
    method SortDescending()
      modifies this
      ensures AdmissibleSort(Descending, old(filterNoodleData), filterNoodleData)
      ensures !isLoading
      ensures noodleData == old(noodleData) && noodleImageData == old(noodleImageData)
      ensures searchQuery == old(searchQuery)
      ensures old(DrawnFromFull()) ==> DrawnFromFull()
    {
      SortBy(Descending);
    }

    /** The start of `getDataFromApi`: loading, and the full collection
        cleared. The displayed list is left as it was, so until the
        products arrive it may show rows the full collection no longer has. */
    method BeginFetch()
      modifies this
      ensures isLoading && noodleData == []
      ensures filterNoodleData == old(filterNoodleData)
      ensures noodleImageData == old(noodleImageData) && searchQuery == old(searchQuery)
      ensures DrawnFromFull() <==> filterNoodleData == []
    {
      isLoading := true;
      noodleData := [];
      if filterNoodleData != [] {
        assert filterNoodleData[0] in multiset(filterNoodleData);
      }
    }

    /** The image collection has arrived. */
    method ReceiveImages(images: seq<ImageRecord>)
      modifies this
      ensures noodleImageData == images
      ensures isLoading == old(isLoading) && searchQuery == old(searchQuery)
      ensures noodleData == old(noodleData) && filterNoodleData == old(filterNoodleData)
    {
      noodleImageData := images;
    }

    /** The product collection has arrived: it becomes both the full and
        the displayed collection, and loading ends. The search text is kept
        but not applied, so a non-empty query may sit beside an unfiltered
        list. */
    method ReceiveProducts(products: seq<Product>)
      modifies this
      ensures noodleData == products && filterNoodleData == products
      ensures !isLoading
      ensures noodleImageData == old(noodleImageData) && searchQuery == old(searchQuery)
      ensures DrawnFromFull()
    {
      noodleData := products;
      filterNoodleData := products;
      isLoading := false;
    }

    /** `getDataFromApi` with both fetches succeeding and nothing else
        happening in between (the mount and every pull-to-refresh). The
        outcome does not depend on the state before. */
    method Refresh(images: seq<ImageRecord>, products: seq<Product>)
      modifies this
      ensures noodleData == products && filterNoodleData == products
      ensures noodleImageData == images && !isLoading
      ensures searchQuery == old(searchQuery)
      ensures DrawnFromFull()
    {
      BeginFetch();
      ReceiveImages(images);
      ReceiveProducts(products);
    }
  }

  /** A filtered list is drawn from the collection it filters. */
  lemma FilteredIsDrawn(items: seq<Product>, query: string)
    ensures multiset(FilterByBrand(items, query)) <= multiset(items)
  {
  }
}
