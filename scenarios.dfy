/** Runs of the detail screen's handlers on concrete data, stating what the
    user sees after each step. */
module Scenarios {
  import opened Wrappers
  import opened JsText
  import opened Catalog
  import opened Screen

  const Nissin := Product("Nissin", "Top Ramen Chicken", "USA", "5")
  const Maruchan := Product("Maruchan", "Ramen Noodle Soup", "USA", "2")

  lemma NissinItemData()
    ensures ItemData(Nissin) == "NISSIN "
  {
    TrimUnpadded("Nissin");
    var u := Upper("Nissin");
    assert forall i :: 0 <= i < 6 ==> u[i] == "NISSIN"[i];
    assert u == "NISSIN";
  }

  lemma MaruchanItemData()
    ensures ItemData(Maruchan) == "MARUCHAN "
  {
    TrimUnpadded("Maruchan");
    var u := Upper("Maruchan");
    assert forall i :: 0 <= i < 8 ==> u[i] == "MARUCHAN"[i];
    assert u == "MARUCHAN";
  }

  lemma UpperMar()
    ensures Upper("mar") == "MAR"
  {
    var u := Upper("mar");
    assert forall i :: 0 <= i < 3 ==> u[i] == "MAR"[i];
  }

  /** The query "mar" does not match the brand "Nissin". */
  lemma NissinDoesNotMatchMar()
    ensures !Matches(Nissin, "mar")
  {
    UpperMar();
    NissinItemData();
    IndexOfMissingFirst("NISSIN ", "MAR");
  }

  /** The query "mar" matches the brand "Maruchan". */
  lemma MaruchanMatchesMar()
    ensures Matches(Maruchan, "mar")
  {
    UpperMar();
    MaruchanItemData();
    assert "MARUCHAN "[0..3] == "MAR";
    assert OccursAt("MARUCHAN ", "MAR", 0);
  }

  /** Searching the two products for "mar" keeps only Maruchan. */
  lemma FilterMar()
    ensures FilterByBrand([Nissin, Maruchan], "mar") == [Maruchan]
  {
    MaruchanMatchesMar();
    NissinDoesNotMatchMar();
    FilterCons([Maruchan], "mar");
    assert [Maruchan][1..] == [];
    FilterCons([Nissin, Maruchan], "mar");
    assert [Nissin, Maruchan][1..] == [Maruchan];
  }

  /** A permutation of one element is that element. */
  lemma SingletonPermutation(p: Product, t: seq<Product>)
    requires multiset(t) == multiset([p])
    ensures t == [p]
  {
    assert |t| == |multiset(t)| == 1;
    assert t[0] in multiset(t);
  }

  /** Search "mar", sort ascending, then clear the search. */
  method SearchSortClear() returns (afterSearch: seq<Product>, afterSort: seq<Product>, afterClear: seq<Product>)
    ensures afterSearch == [Maruchan]
    ensures afterSort == [Maruchan]
    ensures afterClear == [Nissin, Maruchan]
  {
    var screen := new DetailScreen();
    screen.Refresh([], [Nissin, Maruchan]);
    screen.OnChangeSearch("mar");
    FilterMar();
    afterSearch := screen.filterNoodleData;
    screen.SortAscending();
    afterSort := screen.filterNoodleData;
    SingletonPermutation(Maruchan, afterSort);
    screen.OnChangeSearch("");
    afterClear := screen.filterNoodleData;
  }

  /** While a refresh is in flight the full collection is empty but the
      old rows stay displayed; a search typed then empties the list. */
  method SearchDuringRefresh()
    returns (shownBefore: seq<Product>, full: seq<Product>, searched: seq<Product>,
             shownAfter: seq<Product>, caption: Option<string>)
    ensures shownBefore == [Maruchan] && full == []
    ensures searched == [] && caption == Some("Fetching Items")
    ensures shownAfter == []
  {
    var screen := new DetailScreen();
    screen.Refresh([], [Maruchan]);
    screen.BeginFetch();
    shownBefore, full := screen.filterNoodleData, screen.noodleData;
    screen.OnChangeSearch("mar");
    searched := screen.filterNoodleData;
    caption := screen.Caption();
    screen.OnChangeSearch("");
    shownAfter := screen.filterNoodleData;
  }

  /** A fetch whose request fails never reaches the end of
      `getDataFromApi`: loading stays set and the empty list says
      "Fetching Items" until a sort handler clears the flag. */
  method FailedFetchThenSort() returns (captionBefore: Option<string>, captionAfter: Option<string>)
    ensures captionBefore == Some("Fetching Items")
    ensures captionAfter == Some("No Items Found")
  {
    var screen := new DetailScreen();
    screen.BeginFetch();
    captionBefore := screen.Caption();
    screen.SortAscending();
    captionAfter := screen.Caption();
  }

  /** Two overlapping refreshes: the first completion already clears the
      loading flag, and the products that arrive last win. */
  method OverlappingRefreshes(images1: seq<ImageRecord>, products1: seq<Product>,
                              images2: seq<ImageRecord>, products2: seq<Product>)
    returns (loadingBetween: bool, shown: seq<Product>, images: seq<ImageRecord>)
    ensures !loadingBetween
    ensures shown == products2 && images == images2
  {
    var screen := new DetailScreen();
    screen.BeginFetch();
    screen.BeginFetch();
    screen.ReceiveImages(images1);
    screen.ReceiveImages(images2);
    screen.ReceiveProducts(products1);
    loadingBetween := screen.isLoading;
    screen.ReceiveProducts(products2);
    shown, images := screen.filterNoodleData, screen.noodleImageData;
  }

  /** A completed fetch does not re-apply the search text. */
  method QueryKeptListUnfiltered() returns (query: string, shown: seq<Product>)
    ensures query == "mar" && shown == [Nissin, Maruchan]
  {
    var screen := new DetailScreen();
    screen.OnChangeSearch("mar");
    screen.Refresh([], [Nissin, Maruchan]);
    query, shown := screen.searchQuery, screen.filterNoodleData;
  }
}
