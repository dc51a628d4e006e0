/** The product catalogue and its two lookups: find a product by id and
    list the products of one category (or all of them). */
module Products {
  import opened Common

  /** The three kinds of product that can be tried on. */
  datatype Category = Eyewear | Watch | Clothing {
    /** The string the catalogue stores for this category. */
    function Name(): (s: string)
      ensures |s| > 0
    {
      match this
      case Eyewear => "eyewear"
      case Watch => "watch"
      case Clothing => "clothing"
    }
  }

  /** One catalogue entry; optional fields are `Option`s. The image is the
      asset's import path, standing in for the URL the bundler substitutes
      for it at build time. The display-only description and feature list
      are not part of the model. */
  datatype Product = Product(
    id: string,
    name: string,
    category: Category,
    subcategory: string,
    price: int,
    originalPrice: Option<int>,
    image: string,
    tryOnAvailable: bool,
    colors: Option<seq<string>>,
    sizes: Option<seq<string>>)

  /** The literal catalogue, in its declared order. */
  const Catalogue: seq<Product> := [
    ClassicAviator,
    ChronographElite,
    UrbanBlazer,
    RoundVintage,
    SmartWatchPro,
    CasualDenimJacket,
    CatEyeClassic,
    WayfarerModern,
    ClassicDressWatch,
    SportsWatchX,
    MeshMinimalist,
    PoloClassic,
    WoolOvercoat,
    LeatherBomber
  ]

  const ClassicAviator: Product := Product("classic-aviator", "Classic Aviator", Eyewear, "Sunglasses", 149, Some(199),
      "@/assets/products/aviator-sunglasses.jpg",
      true, Some(["Gold", "Silver", "Black"]), None)

  const ChronographElite: Product := Product("chronograph-elite", "Chronograph Elite", Watch, "Luxury Watch", 299, None,
      "@/assets/products/chronograph-watch.jpg",
      true, Some(["Blue/Silver", "Black/Gold", "White/Rose Gold"]), None)

  const UrbanBlazer: Product := Product("urban-blazer", "Urban Blazer", Clothing, "Blazer", 189, None,
      "@/assets/products/urban-blazer.jpg",
      true, Some(["Navy", "Charcoal", "Black"]), Some(["S", "M", "L", "XL", "XXL"]))

  const RoundVintage: Product := Product("round-vintage", "Round Vintage", Eyewear, "Eyeglasses", 129, None,
      "@/assets/products/round-vintage.jpg",
      true, Some(["Tortoise", "Black", "Crystal"]), None)

  const SmartWatchPro: Product := Product("smart-watch-pro", "Smart Watch Pro", Watch, "Smart Watch", 449, Some(499),
      "@/assets/products/smart-watch.jpg",
      true, Some(["Black", "White", "Rose Gold"]), None)

  const CasualDenimJacket: Product := Product("casual-denim-jacket", "Casual Denim Jacket", Clothing, "Jacket", 159, None,
      "@/assets/products/denim-jacket.jpg",
      true, Some(["Light Blue", "Dark Blue", "Black"]), Some(["XS", "S", "M", "L", "XL"]))

  const CatEyeClassic: Product := Product("cat-eye-classic", "Cat Eye Classic", Eyewear, "Eyeglasses", 139, None,
      "@/assets/products/cat-eye-glasses.jpg",
      true, Some(["Tortoise", "Black", "Burgundy"]), None)

  const WayfarerModern: Product := Product("wayfarer-modern", "Wayfarer Modern", Eyewear, "Eyeglasses", 119, None,
      "@/assets/products/wayfarer-glasses.jpg",
      true, Some(["Matte Black", "Havana", "Crystal Clear"]), None)

  const ClassicDressWatch: Product := Product("classic-dress-watch", "Classic Dress Watch", Watch, "Dress Watch", 259, None,
      "@/assets/products/classic-dress-watch.jpg",
      true, Some(["Brown/Silver", "Black/Gold", "Tan/Rose Gold"]), None)

  const SportsWatchX: Product := Product("sports-watch-x", "Sports Watch X", Watch, "Sports Watch", 349, Some(399),
      "@/assets/products/sports-watch.jpg",
      true, Some(["Black/Orange", "Black/Green", "All Black"]), None)

  const MeshMinimalist: Product := Product("mesh-minimalist", "Mesh Minimalist", Watch, "Minimalist Watch", 199, None,
      "@/assets/products/mesh-watch.jpg",
      true, Some(["Silver", "Gold", "Rose Gold"]), None)

  const PoloClassic: Product := Product("polo-classic", "Classic Polo", Clothing, "Polo Shirt", 79, None,
      "@/assets/products/polo-shirt.jpg",
      true, Some(["Burgundy", "Navy", "White", "Forest Green"]), Some(["XS", "S", "M", "L", "XL", "XXL"]))

  const WoolOvercoat: Product := Product("wool-overcoat", "Wool Overcoat", Clothing, "Coat", 349, Some(429),
      "@/assets/products/wool-overcoat.jpg",
      true, Some(["Camel", "Charcoal", "Navy"]), Some(["S", "M", "L", "XL"]))

  const LeatherBomber: Product := Product("leather-bomber", "Leather Bomber", Clothing, "Jacket", 279, None,
      "@/assets/products/bomber-jacket.jpg",
      true, Some(["Black", "Brown", "Dark Green"]), Some(["S", "M", "L", "XL", "XXL"]))

  // ---------------------------------------------------------------------------
  // Lookup by id (`Array.prototype.find`)
  // ---------------------------------------------------------------------------

  /** The first entry of `ps` whose id is `id`, if any. */
  function FindById(ps: seq<Product>, id: string): (r: Option<Product>)
    ensures r.None? <==> forall i | 0 <= i < |ps| :: ps[i].id != id
    ensures r.Some? ==> exists i | 0 <= i < |ps| :: ps[i] == r.value && ps[i].id == id &&
                          forall j | 0 <= j < i :: ps[j].id != id
  {
    if ps == [] then None
    else if ps[0].id == id then Some(ps[0])
    else
      var r := FindById(ps[1..], id);
      assert r.Some? ==> exists i | 0 <= i < |ps[1..]| :: ps[1..][i] == r.value && ps[1..][i].id == id &&
                           forall j | 0 <= j < i :: ps[1..][j].id != id;
      assert r.Some? ==> exists i | 0 <= i < |ps| :: ps[i] == r.value && ps[i].id == id &&
                           forall j | 0 <= j < i :: ps[j].id != id by {
        if r.Some? {
          var i :| 0 <= i < |ps[1..]| && ps[1..][i] == r.value && ps[1..][i].id == id &&
                   forall j | 0 <= j < i :: ps[1..][j].id != id;
          assert ps[i + 1] == r.value && forall j | 0 <= j < i + 1 :: ps[j].id != id;
        }
      }
      r
  }

  /** `getProductById`: the first catalogue entry with the given id. */
  function GetProductById(id: string): (r: Option<Product>)
    ensures r.None? <==> forall p | p in Catalogue :: p.id != id
    ensures r.Some? ==> r.value in Catalogue && r.value.id == id
  {
    FindById(Catalogue, id)
  }

  /** No two entries share an id. */
  predicate DistinctIds(ps: seq<Product>) {
    forall i, j | 0 <= i < j < |ps| :: ps[i].id != ps[j].id
  }

  /** With distinct ids, looking up an entry's own id gives back exactly that entry. */
  lemma {:induction false} FindOwnId(ps: seq<Product>, k: nat)
    requires DistinctIds(ps) && k < |ps|
    ensures FindById(ps, ps[k].id) == Some(ps[k])
  {
    var r := FindById(ps, ps[k].id);
    var i :| 0 <= i < |ps| && ps[i] == r.value && ps[i].id == ps[k].id &&
             forall j | 0 <= j < i :: ps[j].id != ps[k].id;
    assert i == k;
  }

  /** The catalogue's ids are pairwise distinct. */
  lemma CatalogueIdsDistinct()
    ensures DistinctIds(Catalogue)
  {
    forall i, j | 0 <= i < j < |Catalogue|
      ensures Catalogue[i].id != Catalogue[j].id
    {
      IdDiffersFromLater(i);
    }
  }

  /** The id of entry `i` differs from the ids of all later entries. */
  lemma IdDiffersFromLater(i: nat)
    requires i < |Catalogue|
    ensures forall j | i < j < |Catalogue| :: Catalogue[i].id != Catalogue[j].id
  {
  }

  /** Every catalogue entry is found by its own id. */
  lemma GetProductByOwnId(p: Product)
    requires p in Catalogue
    ensures GetProductById(p.id) == Some(p)
  {
    CatalogueIdsDistinct();
    var k :| 0 <= k < |Catalogue| && Catalogue[k] == p;
    FindOwnId(Catalogue, k);
  }

  // ---------------------------------------------------------------------------
  // Listing by category (`Array.prototype.filter`)
  // ---------------------------------------------------------------------------

  /** `sub` can be obtained from `s` by deleting elements (order kept). */
  predicate IsSubsequence<T(==)>(sub: seq<T>, s: seq<T>)
    decreases |s|
  {
    if sub == [] then true
    else if s == [] then false
    else if sub[0] == s[0] then IsSubsequence(sub[1..], s[1..])
    else IsSubsequence(sub, s[1..])
  }

  /** The entries of `ps` whose category string is `category`, in order. */
  function FilterByCategory(ps: seq<Product>, category: string): (r: seq<Product>)
    ensures forall p :: p in r <==> p in ps && p.category.Name() == category
    ensures IsSubsequence(r, ps)
    ensures |r| <= |ps|
  {
    if ps == [] then []
    else if ps[0].category.Name() == category then [ps[0]] + FilterByCategory(ps[1..], category)
    else FilterByCategory(ps[1..], category)
  }

  /** `getProductsByCategory`: the whole catalogue for "all", otherwise the
      entries of that category in catalogue order. */
  function GetProductsByCategory(category: string): (r: seq<Product>)
    ensures category == "all" ==> r == Catalogue
    ensures category != "all" ==>
              && IsSubsequence(r, Catalogue)
              && forall p :: p in r <==> p in Catalogue && p.category.Name() == category
  {
    if category == "all" then Catalogue
    else FilterByCategory(Catalogue, category)
  }

  /** How often `p` occurs in `s`. */
  function Occurrences(s: seq<Product>, p: Product): nat {
    multiset(s)[p]
  }

  /** Filtering by the three category names splits any product list into
      three parts whose lengths add up to the length of the list. */
  lemma {:induction false} CategoriesPartition(ps: seq<Product>)
    ensures |FilterByCategory(ps, "eyewear")| + |FilterByCategory(ps, "watch")|
            + |FilterByCategory(ps, "clothing")| == |ps|
  {
    if ps != [] {
      CategoriesPartition(ps[1..]);
      match ps[0].category
      case Eyewear =>
        assert FilterByCategory(ps, "eyewear") == [ps[0]] + FilterByCategory(ps[1..], "eyewear");
      case Watch =>
        assert FilterByCategory(ps, "watch") == [ps[0]] + FilterByCategory(ps[1..], "watch");
      case Clothing =>
        assert FilterByCategory(ps, "clothing") == [ps[0]] + FilterByCategory(ps[1..], "clothing");
    }
  }

  /** Every entry lands in the list of its own category exactly as often as
      it occurs in the input. */
  lemma {:induction false} OwnCategoryKeepsAll(ps: seq<Product>, p: Product)
    ensures Occurrences(FilterByCategory(ps, p.category.Name()), p) == Occurrences(ps, p)
  {
    if ps != [] {
      OwnCategoryKeepsAll(ps[1..], p);
      var c := p.category.Name();
      assert ps == [ps[0]] + ps[1..];
      if ps[0].category.Name() == c {
        assert FilterByCategory(ps, c) == [ps[0]] + FilterByCategory(ps[1..], c);
      } else {
        assert ps[0] != p;
        assert FilterByCategory(ps, c) == FilterByCategory(ps[1..], c);
      }
    }
  }

  /** A string naming none of the three categories (and not "all") lists nothing. */
  lemma UnknownCategoryIsEmpty(category: string)
    requires category !in {"all", "eyewear", "watch", "clothing"}
    ensures GetProductsByCategory(category) == []
  {
    var r := GetProductsByCategory(category);
    assert forall i | 0 <= i < |r| :: r[i] in r;
  }

  /** The catalogue is split by the three categories: the three lists
      together are as long as the catalogue and every entry is listed under
      its own category. */
  lemma CatalogueByCategory()
    ensures |GetProductsByCategory("eyewear")| + |GetProductsByCategory("watch")|
            + |GetProductsByCategory("clothing")| == |Catalogue|
    ensures forall p | p in Catalogue :: p in GetProductsByCategory(p.category.Name())
  {
    assert "eyewear" != "all" && "watch" != "all" && "clothing" != "all";
    CategoriesPartition(Catalogue);
    forall p | p in Catalogue
      ensures p in GetProductsByCategory(p.category.Name())
    {
      assert p.category.Name() != "all";
    }
  }

  /** What the literal catalogue holds: fourteen entries, every one of them
      available for try-on, priced above zero, and marked down from its
      original price wherever it has one. */
  lemma CatalogueEntries()
    ensures |Catalogue| == 14
    ensures forall i | 0 <= i < |Catalogue| :: WellPriced(Catalogue[i])
  {
  }

  /** A product that can be tried on, costs more than nothing and, when it
      shows an original price, is marked down from it. */
  predicate WellPriced(p: Product) {
    && p.tryOnAvailable && p.price > 0
    && (p.originalPrice.Some? ==> p.originalPrice.value > p.price)
  }
}
