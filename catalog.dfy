/** The product catalog's derived view (src/components/Products.tsx): the filter
    predicate over search term, category and price range, the stable sort selected
    by the sort key, and the favourites toggle. */
module Catalog {
  import opened Optional
  import opened Seqs
  import opened Text

  /** A catalog entry. Prices are whole currency units and ratings are in tenths of
      a star (4.8 stars is 48), which is exact for every entry of the catalog. */
  datatype Product = Product(
    id: int,
    name: string,
    price: int,
    originalPrice: Option<int>,
    rating: int,
    reviews: nat,
    category: string,
    image: string,
    description: string,
    tags: seq<string>,
    inStock: bool,
    featured: bool)

  /** The inputs of the filter effect: search term, selected category, price slider
      `[minPrice, maxPrice]` and the sort selector's value. */
  datatype CatalogView = CatalogView(
    searchTerm: string,
    category: string,
    minPrice: int,
    maxPrice: int,
    sortBy: string)

  /** The component's initial view: empty search, every category, `[0, 1000]`, featured. */
  const InitialView := CatalogView("", "all", 0, 1000, "featured")

  // ---------------------------------------------------------------------------
  // Filtering
  // ---------------------------------------------------------------------------

  /** Case-insensitive search over name, description and tags. */
  predicate MatchesSearch(p: Product, term: string) {
    var t := Lower(term);
    Includes(Lower(p.name), t) ||
    Includes(Lower(p.description), t) ||
    exists tag :: tag in p.tags && Includes(Lower(tag), t)
  }

  predicate MatchesCategory(p: Product, category: string) {
    category == "all" || p.category == category
  }

  predicate MatchesPrice(p: Product, minPrice: int, maxPrice: int) {
    p.price >= minPrice && p.price <= maxPrice
  }

  predicate Matches(p: Product, v: CatalogView) {
    MatchesSearch(p, v.searchTerm) && MatchesCategory(p, v.category) &&
    MatchesPrice(p, v.minPrice, v.maxPrice)
  }

  /** The first half of the effect: the products that pass all three tests, in
      catalog order. */
  function FilterProducts(products: seq<Product>, v: CatalogView): seq<Product> {
    Filter(products, p => Matches(p, v))
  }

  /** The filter keeps exactly the matching products, each as often as the catalog
      holds it, in catalog order. */
  lemma FilterProductsSpec(products: seq<Product>, v: CatalogView)
    ensures IsSubsequence(FilterProducts(products, v), products)
    ensures forall p :: p in FilterProducts(products, v) ==> Matches(p, v)
    ensures forall p :: multiset(FilterProducts(products, v))[p] ==
                        if Matches(p, v) then multiset(products)[p] else 0
  {
    FilterIsSubsequence(products, p => Matches(p, v));
    forall p ensures multiset(FilterProducts(products, v))[p] ==
                     if Matches(p, v) then multiset(products)[p] else 0 {
      FilterCount(products, p => Matches(p, v), p);
    }
  }

  /** What the search test means: the lower-cased term occurs in the lower-cased name,
      description or some tag; the empty term matches every product; the term's case
      does not matter. */
  lemma {:induction false} MatchesSearchSpec(p: Product, term: string)
    ensures MatchesSearch(p, term) <==>
      (exists i :: OccursAt(Lower(p.name), Lower(term), i)) ||
      (exists i :: OccursAt(Lower(p.description), Lower(term), i)) ||
      (exists tag, i :: tag in p.tags && OccursAt(Lower(tag), Lower(term), i))
    ensures term == "" ==> MatchesSearch(p, term)
    ensures MatchesSearch(p, Lower(term)) == MatchesSearch(p, term)
  {
    var t := Lower(term);
    IncludesIff(Lower(p.name), t);
    IncludesIff(Lower(p.description), t);
    forall tag | tag in p.tags
      ensures Includes(Lower(tag), t) <==> exists i :: OccursAt(Lower(tag), t, i)
    {
      IncludesIff(Lower(tag), t);
    }
    if term == "" {
      EmptyIncluded(Lower(p.name));
    }
    if exists tag, i :: tag in p.tags && OccursAt(Lower(tag), t, i) {
      var tag, i :| tag in p.tags && OccursAt(Lower(tag), t, i);
      assert Includes(Lower(tag), t);
    }
    if exists tag :: tag in p.tags && Includes(Lower(tag), t) {
      var tag :| tag in p.tags && Includes(Lower(tag), t);
      var i :| OccursAt(Lower(tag), t, i);
      assert tag in p.tags && OccursAt(Lower(tag), t, i);
    }
    assert MatchesSearch(p, term) == (Includes(Lower(p.name), t) || Includes(Lower(p.description), t) ||
                                      exists tag :: tag in p.tags && Includes(Lower(tag), t));
    LowerIdempotent(term);
  }

  /** The search and price tests alone: the filter when every category is admitted. */
  function SearchAndPrice(v: CatalogView): Product -> bool {
    p => MatchesSearch(p, v.searchTerm) && MatchesPrice(p, v.minPrice, v.maxPrice)
  }

  /** What the category and price tests do to the filtered list: a named category keeps
      only its own products, `"all"` drops the category test altogether, every kept
      product lies in the price range, and a product priced exactly at either end of
      a non-empty range is kept when it passes the other two tests. */
  lemma CategoryAndPriceSpec(products: seq<Product>, v: CatalogView)
    ensures forall p :: p in FilterProducts(products, v) ==>
      (v.category != "all" ==> p.category == v.category) && v.minPrice <= p.price <= v.maxPrice
    ensures v.category == "all" ==> FilterProducts(products, v) == Filter(products, SearchAndPrice(v))
    ensures forall p ::
      (p in products && MatchesSearch(p, v.searchTerm) &&
       (v.category == "all" || p.category == v.category) &&
       v.minPrice <= v.maxPrice && (p.price == v.minPrice || p.price == v.maxPrice)) ==>
      p in FilterProducts(products, v)
  {
    FilterProductsSpec(products, v);
    if v.category == "all" {
      FilterCongruent(products, p => Matches(p, v), SearchAndPrice(v));
    }
    forall p | p in products && MatchesSearch(p, v.searchTerm) &&
      (v.category == "all" || p.category == v.category) &&
      v.minPrice <= v.maxPrice && (p.price == v.minPrice || p.price == v.maxPrice)
      ensures p in FilterProducts(products, v)
    {
      assert Matches(p, v);
      assert multiset(products)[p] > 0;
    }
  }

  // ---------------------------------------------------------------------------
  // Sorting
  // ---------------------------------------------------------------------------

  datatype SortKey = PriceLow | PriceHigh | Rating | Reviews | Featured

  /** The sort selector's `switch`: four named keys, everything else is featured. */
  function ParseSortKey(sortBy: string): (k: SortKey)
    ensures k == Featured <==>
      sortBy != "price-low" && sortBy != "price-high" && sortBy != "rating" && sortBy != "reviews"
  {
    if sortBy == "price-low" then PriceLow
    else if sortBy == "price-high" then PriceHigh
    else if sortBy == "rating" then Rating
    else if sortBy == "reviews" then Reviews
    else Featured
  }

  /** Each comparator `(a, b) => K(a) - K(b)` orders by ascending `K`; this is `K`. */
  function Key(k: SortKey, p: Product): int {
    match k
    case PriceLow => p.price
    case PriceHigh => -p.price
    case Rating => -p.rating
    case Reviews => -(p.reviews as int)
    case Featured => if p.featured then 0 else 1
  }

  predicate Sorted(s: seq<Product>, k: SortKey) {
    forall i, j :: 0 <= i < j < |s| ==> Key(k, s[i]) <= Key(k, s[j])
  }

  /** The elements of `s` whose key is `v`, in their order in `s`. */
  function Select(s: seq<Product>, k: SortKey, v: int): seq<Product> {
    Filter(s, HasKey(k, v))
  }

  function HasKey(k: SortKey, v: int): Product -> bool {
    p => Key(k, p) == v
  }

  /** Inserts `x` in front of the first element whose key is not smaller. */
  function Insert(x: Product, s: seq<Product>, k: SortKey): seq<Product> {
    if s == [] then [x]
    else if Key(k, s[0]) < Key(k, x) then [s[0]] + Insert(x, s[1..], k)
    else [x] + s
  }

  /** The second half of the effect: a stable sort by ascending `Key(k, _)`, written
      as an insertion sort. */
  function SortBy(s: seq<Product>, k: SortKey): seq<Product> {
    if s == [] then [] else Insert(s[0], SortBy(s[1..], k), k)
  }

  lemma {:induction false} InsertMultiset(x: Product, s: seq<Product>, k: SortKey)
    ensures multiset(Insert(x, s, k)) == multiset(s) + multiset{x}
  {
    if s != [] && Key(k, s[0]) < Key(k, x) {
      InsertMultiset(x, s[1..], k);
      assert s == [s[0]] + s[1..];
    }
  }

  lemma {:induction false} InsertSorted(x: Product, s: seq<Product>, k: SortKey)
    requires Sorted(s, k)
    ensures Sorted(Insert(x, s, k), k)
  {
    if s != [] && Key(k, s[0]) < Key(k, x) {
      InsertSorted(x, s[1..], k);
      var t := Insert(x, s[1..], k);
      InsertHead(x, s[1..], k);
      assert Key(k, s[0]) <= Key(k, t[0]);
      var r := [s[0]] + t;
      forall i, j | 0 <= i < j < |r| ensures Key(k, r[i]) <= Key(k, r[j]) {
        assert r[j] == t[j - 1];
        if i > 0 {
          assert r[i] == t[i - 1];
        }
      }
    }
  }

  /** The head of the result is `x` or the old head. */
  lemma InsertHead(x: Product, s: seq<Product>, k: SortKey)
    ensures Insert(x, s, k) != []
    ensures Insert(x, s, k)[0] == x || (s != [] && Insert(x, s, k)[0] == s[0])
  {
  }

  /** Inserting `x` puts it before every element with the same key. */
  lemma {:induction false} InsertSelect(x: Product, s: seq<Product>, k: SortKey, v: int)
    ensures Select(Insert(x, s, k), k, v) ==
            (if Key(k, x) == v then [x] else []) + Select(s, k, v)
  {
    if s == [] {
    } else if Key(k, s[0]) < Key(k, x) {
      InsertSelect(x, s[1..], k, v);
      var r := [s[0]] + Insert(x, s[1..], k);
      assert r[0] == s[0] && r[1..] == Insert(x, s[1..], k);
      FilterCons(r, HasKey(k, v));
      FilterCons(s, HasKey(k, v));
    } else {
      var r := [x] + s;
      assert r[0] == x && r[1..] == s;
      FilterCons(r, HasKey(k, v));
    }
  }

  /** The sort yields a permutation of its input. */
  lemma {:induction false} SortByPermutation(s: seq<Product>, k: SortKey)
    ensures multiset(SortBy(s, k)) == multiset(s)
  {
    if s != [] {
      SortByPermutation(s[1..], k);
      InsertMultiset(s[0], SortBy(s[1..], k), k);
      assert s == [s[0]] + s[1..];
    }
  }

  lemma {:induction false} SortBySorted(s: seq<Product>, k: SortKey)
    ensures Sorted(SortBy(s, k), k)
  {
    if s != [] {
      SortBySorted(s[1..], k);
      InsertSorted(s[0], SortBy(s[1..], k), k);
    }
  }

  /** Stability: elements with equal keys keep their relative order. */
  lemma {:induction false} SortByStable(s: seq<Product>, k: SortKey, v: int)
    ensures Select(SortBy(s, k), k, v) == Select(s, k, v)
  {
    if s != [] {
      SortByStable(s[1..], k, v);
      InsertSelect(s[0], SortBy(s[1..], k), k, v);
    }
  }

  /** A sequence sorted by the 0/1 featured key is its featured elements followed by
      the others. */
  lemma {:induction false} SortedFeaturedSplits(r: seq<Product>)
    requires Sorted(r, Featured)
    ensures r == Select(r, Featured, 0) + Select(r, Featured, 1)
  {
    if r != [] {
      if r[0].featured {
        SortedFeaturedSplits(r[1..]);
        assert r == [r[0]] + r[1..];
      } else {
        FilterKeepsNone(r, HasKey(Featured, 0));
        FilterKeepsAll(r, HasKey(Featured, 1));
      }
    }
  }

  /** The default sort is a stable partition: every featured product first, then the
      others, each group in the order of the input. */
  lemma FeaturedPartition(s: seq<Product>)
    ensures SortBy(s, Featured) == Filter(s, (p: Product) => p.featured) + Filter(s, (p: Product) => !p.featured)
  {
    var r := SortBy(s, Featured);
    SortBySorted(s, Featured);
    SortedFeaturedSplits(r);
    SortByStable(s, Featured, 0);
    SortByStable(s, Featured, 1);
    FilterCongruent(s, HasKey(Featured, 0), (p: Product) => p.featured);
    FilterCongruent(s, HasKey(Featured, 1), (p: Product) => !p.featured);
  }

  /** What each sort key promises about neighbouring products of the result. */
  lemma SortOrders(s: seq<Product>, k: SortKey)
    ensures var r := SortBy(s, k);
      && (k == PriceLow ==> forall i, j :: 0 <= i < j < |r| ==> r[i].price <= r[j].price)
      && (k == PriceHigh ==> forall i, j :: 0 <= i < j < |r| ==> r[i].price >= r[j].price)
      && (k == Rating ==> forall i, j :: 0 <= i < j < |r| ==> r[i].rating >= r[j].rating)
      && (k == Reviews ==> forall i, j :: 0 <= i < j < |r| ==> r[i].reviews >= r[j].reviews)
      && (k == Featured ==> forall i, j :: 0 <= i < j < |r| && r[j].featured ==> r[i].featured)
  {
    SortBySorted(s, k);
  }

  // ---------------------------------------------------------------------------
  // The whole effect
  // ---------------------------------------------------------------------------

  /** The list the effect stores in `filteredProducts`. */
  function VisibleProducts(products: seq<Product>, v: CatalogView): seq<Product> {
    SortBy(FilterProducts(products, v), ParseSortKey(v.sortBy))
  }

  /** The displayed list holds exactly the matching catalog entries (each as often as
      the catalog does), ordered by the selected key, stably with respect to catalog
      order. */
  lemma VisibleProductsSpec(products: seq<Product>, v: CatalogView)
    ensures var r := VisibleProducts(products, v); var k := ParseSortKey(v.sortBy);
      && (forall p :: p in r ==> p in products && Matches(p, v))
      && (forall p :: multiset(r)[p] == if Matches(p, v) then multiset(products)[p] else 0)
      && Sorted(r, k)
      && (forall w :: Select(r, k, w) == Select(FilterProducts(products, v), k, w))
  {
    var f := FilterProducts(products, v);
    var k := ParseSortKey(v.sortBy);
    FilterProductsSpec(products, v);
    SortByPermutation(f, k);
    SortBySorted(f, k);
    forall w ensures Select(SortBy(f, k), k, w) == Select(f, k, w) {
      SortByStable(f, k, w);
    }
    forall p | p in SortBy(f, k) ensures p in products && Matches(p, v) {
      assert p in multiset(SortBy(f, k));
    }
  }

  // ---------------------------------------------------------------------------
  // Favourites
  // ---------------------------------------------------------------------------

  /** `toggleFavorite`: remove every occurrence of a present id, append an absent one. */
  function ToggleFavorite(favorites: seq<int>, id: int): seq<int> {
    if id in favorites then Filter(favorites, IsNot(id)) else favorites + [id]
  }

  function IsNot(id: int): int -> bool {
    x => x != id
  }

  lemma ToggleFavoriteSpec(favorites: seq<int>, id: int)
    ensures var r := ToggleFavorite(favorites, id);
      && (id !in favorites ==> r == favorites + [id])
      && (id in favorites ==>
            id !in r && IsSubsequence(r, favorites) &&
            forall x :: x != id ==> multiset(r)[x] == multiset(favorites)[x])
  {
    if id in favorites {
      FilterIsSubsequence(favorites, IsNot(id));
      FilterCount(favorites, IsNot(id), id);
      forall x | x != id
        ensures multiset(ToggleFavorite(favorites, id))[x] == multiset(favorites)[x]
      {
        FilterCount(favorites, IsNot(id), x);
      }
    }
  }

  /** Toggling an absent id twice restores the list. */
  lemma ToggleFavoriteTwice(favorites: seq<int>, id: int)
    requires id !in favorites
    ensures ToggleFavorite(ToggleFavorite(favorites, id), id) == favorites
  {
    FilterAppend(favorites, [id], x => x != id);
    FilterKeepsAll(favorites, x => x != id);
  }
}

/** The catalog the component loads on mount, and what the view shows for it. */
module SampleCatalog {
  import opened Optional
  import opened Seqs
  import opened Catalog

  const Img := "https://images.unsplash.com/"

  const P1 := Product(1, "Premium Wireless Headphones", 299, Some(399), 48, 1234, "electronics",
      Img + "photo-1505740420928-5e560c06d30e?w=400&h=300&fit=crop",
      "High-quality wireless headphones with noise cancellation and premium sound quality.",
      ["wireless", "bluetooth", "noise-canceling"], true, true)

  const P2 := Product(2, "Smart Fitness Watch", 249, None, 46, 856, "electronics",
      Img + "photo-1523275335684-37898b6baf30?w=400&h=300&fit=crop",
      "Advanced fitness tracking with heart rate monitoring and GPS functionality.",
      ["fitness", "smartwatch", "gps"], true, true)

  const P3 := Product(3, "Organic Coffee Beans", 24, None, 49, 456, "food",
      Img + "photo-1559056199-641a0ac8b55e?w=400&h=300&fit=crop",
      "Premium organic coffee beans sourced from sustainable farms.",
      ["organic", "fair-trade", "premium"], true, false)

  const P4 := Product(4, "Minimalist Desk Lamp", 89, Some(120), 44, 234, "home",
      Img + "photo-1507003211169-0a1dd7228f2d?w=400&h=300&fit=crop",
      "Modern LED desk lamp with adjustable brightness and wireless charging base.",
      ["led", "wireless-charging", "modern"], true, false)

  const P5 := Product(5, "Vintage Leather Jacket", 189, None, 47, 678, "clothing",
      Img + "photo-1551028719-00167b16eac5?w=400&h=300&fit=crop",
      "Classic vintage-style leather jacket made from genuine leather.",
      ["leather", "vintage", "classic"], false, false)

  const P6 := Product(6, "Professional Camera Lens", 599, None, 49, 123, "electronics",
      Img + "photo-1606983340126-99ab4feaa64a?w=400&h=300&fit=crop",
      "High-performance telephoto lens for professional photography.",
      ["photography", "telephoto", "professional"], true, true)

  const P7 := Product(7, "Ergonomic Office Chair", 349, Some(449), 45, 567, "home",
      Img + "photo-1586023492125-27b2c045efd7?w=400&h=300&fit=crop",
      "Comfortable ergonomic office chair with lumbar support and adjustable height.",
      ["ergonomic", "office", "comfort"], true, false)

  const P8 := Product(8, "Artisan Tea Collection", 45, None, 46, 289, "food",
      Img + "photo-1597318821089-425c7c23e8e4?w=400&h=300&fit=crop",
      "Curated collection of premium artisan teas from around the world.",
      ["tea", "artisan", "collection"], true, false)

  const Products: seq<Product> := [P1, P2, P3, P4, P5, P6, P7, P8]

  function Ids(s: seq<Product>): (r: seq<int>)
    ensures |r| == |s| && forall i :: 0 <= i < |s| ==> r[i] == s[i].id
  {
    if s == [] then [] else [s[0].id] + Ids(s[1..])
  }

  /** The view of the example scenario: electronics only, most expensive first. */
  const Electronics := CatalogView("", "electronics", 0, 1000, "price-high")

  /** The fields of an entry that the view's tests and the sort keys read. */
  predicate Shaped(p: Product, id: int, price: int, category: string, featured: bool) {
    p.id == id && p.price == price && p.category == category && p.featured == featured
  }

  /** The sample catalog's ids, prices, categories and featured flags. */
  predicate LikeSample(c: seq<Product>) {
    |c| == 8 &&
    Shaped(c[0], 1, 299, "electronics", true) && Shaped(c[1], 2, 249, "electronics", true) &&
    Shaped(c[2], 3, 24, "food", false) && Shaped(c[3], 4, 89, "home", false) &&
    Shaped(c[4], 5, 189, "clothing", false) && Shaped(c[5], 6, 599, "electronics", true) &&
    Shaped(c[6], 7, 349, "home", false) && Shaped(c[7], 8, 45, "food", false)
  }

  lemma SampleIsLikeSample()
    ensures LikeSample(Products) && SampleFeatured(Products)
  {
  }

  lemma ElectronicsMatches(c: seq<Product>)
    requires LikeSample(c)
    ensures Matches(c[0], Electronics) && Matches(c[1], Electronics) && Matches(c[5], Electronics)
    ensures !Matches(c[2], Electronics) && !Matches(c[3], Electronics) && !Matches(c[4], Electronics)
    ensures !Matches(c[6], Electronics) && !Matches(c[7], Electronics)
  {
    MatchesSearchSpec(c[0], "");
    MatchesSearchSpec(c[1], "");
    MatchesSearchSpec(c[5], "");
  }

  lemma ElectronicsFilter(c: seq<Product>)
    requires LikeSample(c)
    ensures FilterProducts(c, Electronics) == [c[0], c[1], c[5]]
  {
    ElectronicsMatches(c);
    var f := (p: Product) => Matches(p, Electronics);
    FilterCons(c[7..], f);
    FilterCons(c[6..], f);
    FilterCons(c[5..], f);
    FilterCons(c[4..], f);
    FilterCons(c[3..], f);
    FilterCons(c[2..], f);
    FilterCons(c[1..], f);
    FilterCons(c, f);
    assert Filter(c[7..][1..], f) == [];
  }

  lemma ElectronicsByPriceHighOf(c: seq<Product>)
    requires LikeSample(c)
    ensures Ids(VisibleProducts(c, Electronics)) == [6, 1, 2]
  {
    ElectronicsFilter(c);
    var e := [c[0], c[1], c[5]];
    assert SortBy(e[2..], PriceHigh) == [c[5]];
    assert Insert(c[1], [c[5]], PriceHigh) == [c[5], c[1]];
    assert SortBy(e[1..], PriceHigh) == [c[5], c[1]];
    assert Insert(c[0], [c[1]], PriceHigh) == [c[0], c[1]];
    assert Insert(c[0], [c[5], c[1]], PriceHigh) == [c[5], c[0], c[1]];
  }

  lemma InitialViewKeepsAll(c: seq<Product>)
    requires LikeSample(c)
    ensures FilterProducts(c, InitialView) == c
  {
    forall i | 0 <= i < |c| ensures Matches(c[i], InitialView) {
      MatchesSearchSpec(c[i], "");
    }
    FilterKeepsAll(c, p => Matches(p, InitialView));
  }

  /** Which sample entries are featured. */
  predicate SampleFeatured(c: seq<Product>)
    requires |c| == 8
  {
    c[0].featured && c[1].featured && !c[2].featured && !c[3].featured &&
    !c[4].featured && c[5].featured && !c[6].featured && !c[7].featured
  }

  lemma FeaturedOfSample(c: seq<Product>)
    requires |c| == 8 && SampleFeatured(c)
    ensures Filter(c, (p: Product) => p.featured) == [c[0], c[1], c[5]]
  {
    var f := (p: Product) => p.featured;
    FilterCons(c[7..], f);
    FilterCons(c[6..], f);
    FilterCons(c[5..], f);
    FilterCons(c[4..], f);
    FilterCons(c[3..], f);
    FilterCons(c[2..], f);
    FilterCons(c[1..], f);
    FilterCons(c, f);
    assert c[7..][1..] == [];
  }

  lemma NonFeaturedOfSampleTail(c: seq<Product>)
    requires |c| == 8 && SampleFeatured(c)
    ensures Filter(c[4..], (p: Product) => !p.featured) == [c[4], c[6], c[7]]
  {
    var g := (p: Product) => !p.featured;
    FilterCons(c[7..], g);
    FilterCons(c[6..], g);
    FilterCons(c[5..], g);
    FilterCons(c[4..], g);
    assert c[7..][1..] == [];
  }

  lemma NonFeaturedOfSample(c: seq<Product>)
    requires |c| == 8 && SampleFeatured(c)
    ensures Filter(c, (p: Product) => !p.featured) == [c[2], c[3], c[4], c[6], c[7]]
  {
    var g := (p: Product) => !p.featured;
    NonFeaturedOfSampleTail(c);
    FilterCons(c[3..], g);
    FilterCons(c[2..], g);
    FilterCons(c[1..], g);
    FilterCons(c, g);
    assert c[3..][1..] == c[4..];
  }

  lemma IdsOfEight(w: seq<Product>)
    requires |w| == 8
    ensures Ids(w) == [w[0].id, w[1].id, w[2].id, w[3].id, w[4].id, w[5].id, w[6].id, w[7].id]
  {
  }

  lemma InitialViewOrderOf(c: seq<Product>)
    requires LikeSample(c)
    ensures Ids(VisibleProducts(c, InitialView)) == [1, 2, 6, 3, 4, 5, 7, 8]
  {
    assert SampleFeatured(c);
    InitialViewKeepsAll(c);
    assert ParseSortKey(InitialView.sortBy) == Featured;
    var v := VisibleProducts(c, InitialView);
    assert v == SortBy(c, Featured);
    FeaturedPartition(c);
    FeaturedOfSample(c);
    NonFeaturedOfSample(c);
    var w := [c[0], c[1], c[5]] + [c[2], c[3], c[4], c[6], c[7]];
    assert v == w;
    IdsOfEight(w);
  }

  /** Electronics, most expensive first: the lens (599), the headphones (299), the
      watch (249). */
  lemma ElectronicsByPriceHigh()
    ensures Ids(VisibleProducts(Products, Electronics)) == [6, 1, 2]
  {
    SampleIsLikeSample();
    ElectronicsByPriceHighOf(Products);
  }

  /** The initial view: the three featured products first, the rest in catalog order. */
  lemma InitialViewOrder()
    ensures Ids(VisibleProducts(Products, InitialView)) == [1, 2, 6, 3, 4, 5, 7, 8]
  {
    SampleIsLikeSample();
    InitialViewOrderOf(Products);
  }
}
