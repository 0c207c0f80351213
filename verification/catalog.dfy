/**
 * The static catalogue of the storefront: four product categories whose
 * products are generated from a count, an id base and a file-name slug,
 * plus the two read-only queries over it: `totalProducts`, and the badge
 * tags of a product, which the page defines but does not use.
 */
module Catalog {
  import opened Optional
  import opened Text

  datatype Product = Product(
    id: int,
    name: string,
    category: string,
    price: int,
    image: string,
    sizes: Option<seq<string>>,
    description: Option<string>,
    allImages: Option<seq<string>>)

  datatype ProductCategory = ProductCategory(
    name: string,
    price: int,
    description: Option<string>,
    sizes: Option<seq<string>>,
    products: seq<Product>)

  // ---------------------------------------------------------------------
  // The generator
  // ---------------------------------------------------------------------

  /** The product at index `i` of a category line (the callback given to `Array.from`). */
  function MakeProduct(i: nat, idBase: int, category: string, price: int, slug: string,
                       sizes: Option<seq<string>>, description: string): Product
  {
    var n := NatToString(i + 1);
    var image := "/" + slug + "-" + n + ".jpg";
    Product(idBase + i + 1, category + " - View " + n, category, price, image,
            sizes, Some(description), Some([image]))
  }

  /** `Array.from({ length: count }, (_, i) => ...)` for one category line. */
  function GenerateProducts(count: nat, idBase: int, category: string, price: int, slug: string,
                            sizes: Option<seq<string>>, description: string): (ps: seq<Product>)
    ensures |ps| == count
    ensures forall i :: 0 <= i < count ==>
      ps[i].id == idBase + i + 1 && ps[i].category == category && ps[i].price == price
  {
    seq(count, i requires 0 <= i < count => MakeProduct(i, idBase, category, price, slug, sizes, description))
  }

  const ShirtName: string := "Contrast T-Shirt"
  const JacketName: string := "Faux Jacket"
  const ShoeName: string := "Shoes"
  const ToteName: string := "Tote Bag"

  const ShirtSizes: seq<string> := ["M", "L", "XL"]
  const JacketSizes: seq<string> := ["L", "XL"]
  const ShoeSizes: seq<string> := ["UK 43", "UK 44", "UK 45"]

  /**
   * The dash in the catalogue's descriptions: the source text holds the three
   * characters U+00E2 U+20AC U+201D (an em dash whose UTF-8 bytes were read
   * as Windows-1252), so that is what the page shows.
   */
  const Dash: string := "\U{00E2}\U{20AC}\U{201D}"

  /** The category descriptions (blurbs) and the per-product descriptions (notes). */
  const ShirtBlurb: string := "Vintage Contrast T-Shirt " + Dash + " premium cotton blend with bold contrast panels. Clean, rare, and easy to style."
  const ShirtNote: string := "Vintage Contrast T-Shirt " + Dash + " excellent condition."
  const JacketBlurb: string := "Classic faux leather jacket " + Dash + " warm lining, strong silhouette, and a timeless BSS FASHION staple."
  const JacketNote: string := "Classic faux jacket " + Dash + " excellent condition."
  const ShoeBlurb: string := "Vintage footwear " + Dash + " solid build, clean finish, and ready for daily wear."
  const ShoeNote: string := "Vintage shoes " + Dash + " excellent condition."
  const ToteNote: string := "Everyday tote " + Dash + " clean, roomy, and easy styling."

  /**
   * A category line as the catalogue builds it: `count` products with ids
   * `idBase + 1 .. idBase + count`, each carrying the category's name and price.
   */
  predicate GeneratedLine(c: ProductCategory, name: string, price: int, count: nat, idBase: int) {
    && c.name == name && c.price == price && |c.products| == count
    && forall i :: 0 <= i < count ==>
         c.products[i].id == idBase + i + 1 && c.products[i].category == name && c.products[i].price == price
  }

  /** The shirt line: sizes M, L and XL. */
  function ShirtCategory(): (c: ProductCategory)
    ensures GeneratedLine(c, ShirtName, 999, 12, 0) && c.sizes == Some(ShirtSizes)
  {
    ProductCategory(
      ShirtName, 999, Some(ShirtBlurb), Some(ShirtSizes),
      GenerateProducts(12, 0, ShirtName, 999, "contrast-tshirt", Some(ShirtSizes), ShirtNote))
  }

  /** The jacket line: sizes L and XL. */
  function JacketCategory(): (c: ProductCategory)
    ensures GeneratedLine(c, JacketName, 2499, 14, 100) && c.sizes == Some(JacketSizes)
  {
    ProductCategory(
      JacketName, 2499, Some(JacketBlurb), Some(JacketSizes),
      GenerateProducts(14, 100, JacketName, 2499, "faux-jacket", Some(JacketSizes), JacketNote))
  }

  /** The shoe line: sizes UK 43, UK 44 and UK 45. */
  function ShoeCategory(): (c: ProductCategory)
    ensures GeneratedLine(c, ShoeName, 2999, 32, 200) && c.sizes == Some(ShoeSizes)
  {
    ProductCategory(
      ShoeName, 2999, Some(ShoeBlurb), Some(ShoeSizes),
      GenerateProducts(32, 200, ShoeName, 2999, "shoes", Some(ShoeSizes), ShoeNote))
  }

  /** The tote bags have neither a category description nor sizes. */
  function ToteCategory(): (c: ProductCategory)
    ensures GeneratedLine(c, ToteName, 1999, 28, 300) && c.sizes == None && c.description == None
  {
    ProductCategory(
      ToteName, 1999, None, None,
      GenerateProducts(28, 300, ToteName, 1999, "tote-bag", None, ToteNote))
  }

  /**
   * The four categories of the shop, in display order: 12 shirts at 999,
   * 14 jackets at 2499, 32 pairs of shoes at 2999 and 28 tote bags at 1999,
   * the products of category k numbered `100 * k + 1` upwards.
   */
  function ProductCategories(): (cats: seq<ProductCategory>)
    ensures |cats| == 4
    ensures GeneratedLine(cats[0], ShirtName, 999, 12, 0)
    ensures GeneratedLine(cats[1], JacketName, 2499, 14, 100)
    ensures GeneratedLine(cats[2], ShoeName, 2999, 32, 200)
    ensures GeneratedLine(cats[3], ToteName, 1999, 28, 300)
  {
    [ShirtCategory(), JacketCategory(), ShoeCategory(), ToteCategory()]
  }

  /** Four category lines shaped as the shop's are. */
  predicate ShopLines(cats: seq<ProductCategory>) {
    && |cats| == 4
    && GeneratedLine(cats[0], ShirtName, 999, 12, 0)
    && GeneratedLine(cats[1], JacketName, 2499, 14, 100)
    && GeneratedLine(cats[2], ShoeName, 2999, 32, 200)
    && GeneratedLine(cats[3], ToteName, 1999, 28, 300)
  }

  // ---------------------------------------------------------------------
  // Queries
  // ---------------------------------------------------------------------

  /** Every product of every category, in catalogue order. */
  function AllProducts(cats: seq<ProductCategory>): seq<Product> {
    if |cats| == 0 then [] else cats[0].products + AllProducts(cats[1..])
  }

  /**
   * `reduce((sum, c) => sum + c.products.length, acc)`: a left fold over the
   * categories; it counts exactly the products the catalogue lists.
   */
  function CountProducts(cats: seq<ProductCategory>, acc: int): (total: int)
    ensures total == acc + |AllProducts(cats)|
  {
    if |cats| == 0 then acc else CountProducts(cats[1..], acc + |cats[0].products|)
  }

  /** `totalProducts`: the number of products in the catalogue. */
  function TotalProducts(cats: seq<ProductCategory>): (total: nat)
    ensures total == |AllProducts(cats)|
  {
    CountProducts(cats, 0)
  }

  /**
   * `getTagForProduct`: a badge pair chosen by the first of "Jacket", "Shoes"
   * and "Tote" that the product's category includes. The page defines this
   * helper but never calls it, so no card shows these badges.
   */
  function TagForProduct(p: Product): (tags: seq<string>)
    ensures |tags| == 2 && "Vintage" in tags
    ensures tags[0] == "Vintage" <==>
      !Contains(p.category, "Jacket") && !Contains(p.category, "Shoes") && !Contains(p.category, "Tote")
  {
    if Contains(p.category, "Jacket") then ["Premium", "Vintage"]
    else if Contains(p.category, "Shoes") then ["Rare", "Vintage"]
    else if Contains(p.category, "Tote") then ["Classic", "Vintage"]
    else ["Vintage", "Last piece"]
  }

  // ---------------------------------------------------------------------
  // Properties of the catalogue
  // ---------------------------------------------------------------------

  predicate IdsIncreasing(ps: seq<Product>) {
    forall i, j :: 0 <= i < j < |ps| ==> ps[i].id < ps[j].id
  }

  predicate IdsDistinct(ps: seq<Product>) {
    forall i, j :: 0 <= i < |ps| && 0 <= j < |ps| && i != j ==> ps[i].id != ps[j].id
  }

  lemma {:induction false} IncreasingConcat(a: seq<Product>, b: seq<Product>)
    requires IdsIncreasing(a) && IdsIncreasing(b)
    requires |a| > 0 && |b| > 0 ==> a[|a| - 1].id < b[0].id
    ensures IdsIncreasing(a + b)
  {
    var ab := a + b;
    forall i, j | 0 <= i < j < |ab|
      ensures ab[i].id < ab[j].id
    {
      if i < |a| && |a| <= j {
        assert ab[i].id <= a[|a| - 1].id;
        assert b[0].id <= ab[j].id;
      }
    }
  }

  /** The products of four category lines, one line after the other. */
  lemma {:induction false} FourLines(cats: seq<ProductCategory>)
    requires |cats| == 4
    ensures AllProducts(cats) == cats[0].products + (cats[1].products + (cats[2].products + cats[3].products))
  {
    var p0, p1, p2, p3 := cats[0].products, cats[1].products, cats[2].products, cats[3].products;
    assert cats[1..][1..][1..][1..] == [];
    assert AllProducts(cats[3..]) == p3 by {
      assert cats[3..] == cats[1..][1..][1..];
      assert AllProducts(cats[3..]) == p3 + AllProducts(cats[1..][1..][1..][1..]);
    }
    assert AllProducts(cats[2..]) == p2 + p3 by {
      assert cats[2..] == cats[1..][1..];
      assert cats[2..][1..] == cats[3..];
    }
    assert AllProducts(cats[1..]) == p1 + (p2 + p3) by {
      assert cats[1..][1..] == cats[2..];
    }
  }

  /** Lines shaped as the shop's list their ids in increasing order, so no two products share one. */
  lemma ShopIds(cats: seq<ProductCategory>)
    requires ShopLines(cats)
    ensures forall k, i :: 0 <= k < 4 && 0 <= i < |cats[k].products| ==> cats[k].products[i].id == 100 * k + i + 1
    ensures IdsIncreasing(AllProducts(cats))
    ensures IdsDistinct(AllProducts(cats))
  {
    var p0, p1, p2, p3 := cats[0].products, cats[1].products, cats[2].products, cats[3].products;
    FourLines(cats);
    var all := AllProducts(cats);
    IncreasingConcat(p2, p3);
    IncreasingConcat(p1, p2 + p3);
    IncreasingConcat(p0, p1 + (p2 + p3));
    forall i, j | 0 <= i < |all| && 0 <= j < |all| && i != j
      ensures all[i].id != all[j].id
    {
      if i < j { assert all[i].id < all[j].id; } else { assert all[j].id < all[i].id; }
    }
  }

  /**
   * The catalogue holds ids 1..12, 101..114, 201..232 and 301..328 in that
   * order; in particular no two products share an id.
   */
  lemma CatalogueIds()
    ensures var cats := ProductCategories();
      && |cats| == 4
      && |cats[0].products| == 12 && |cats[1].products| == 14
      && |cats[2].products| == 32 && |cats[3].products| == 28
      && (forall k, i :: 0 <= k < 4 && 0 <= i < |cats[k].products| ==> cats[k].products[i].id == 100 * k + i + 1)
    ensures IdsIncreasing(AllProducts(ProductCategories()))
    ensures IdsDistinct(AllProducts(ProductCategories()))
  {
    ShopIds(ProductCategories());
  }

  /** `totalProducts` is 12 + 14 + 32 + 28 = 86. */
  lemma CatalogueTotal()
    ensures TotalProducts(ProductCategories()) == 86
  {
    var cats := ProductCategories();
    FourLines(cats);
  }

  /** In lines shaped as the shop's, every product carries the name and price of its line. */
  lemma ShopShape(cats: seq<ProductCategory>)
    requires ShopLines(cats)
    ensures forall c, p :: c in cats && p in c.products ==> p.category == c.name && p.price == c.price
  {
    forall c, p | c in cats && p in c.products
      ensures p.category == c.name && p.price == c.price
    {
      var k :| 0 <= k < 4 && cats[k] == c;
      var i :| 0 <= i < |c.products| && c.products[i] == p;
    }
  }

  /** Every product carries the name and price of the category it is listed under. */
  lemma CatalogueShape()
    ensures forall c, p :: c in ProductCategories() && p in c.products ==>
      p.category == c.name && p.price == c.price
  {
    ShopShape(ProductCategories());
  }

  lemma ShirtWords()
    ensures !Contains(ShirtName, "Jacket") && !Contains(ShirtName, "Shoes") && !Contains(ShirtName, "Tote")
  {
    assert 'J' !in ShirtName && 'e' !in ShirtName;
    MissingChar(ShirtName, "Jacket", 'J');
    MissingChar(ShirtName, "Shoes", 'e');
    MissingChar(ShirtName, "Tote", 'e');
  }

  lemma JacketWords()
    ensures Contains(JacketName, "Jacket")
  {
    var hay := JacketName;
    assert IsPrefix("Jacket", hay[5..]);
    assert Contains(hay[5..], "Jacket");
    assert hay[1..][1..][1..][1..][1..] == hay[5..];
  }

  lemma ShoeWords()
    ensures !Contains(ShoeName, "Jacket") && Contains(ShoeName, "Shoes")
  {
    assert 'J' !in ShoeName;
    MissingChar(ShoeName, "Jacket", 'J');
    assert IsPrefix("Shoes", ShoeName);
  }

  lemma ToteWords()
    ensures !Contains(ToteName, "Jacket") && !Contains(ToteName, "Shoes") && Contains(ToteName, "Tote")
  {
    assert 'J' !in ToteName && 'S' !in ToteName;
    MissingChar(ToteName, "Jacket", 'J');
    MissingChar(ToteName, "Shoes", 'S');
    assert IsPrefix("Tote", ToteName);
  }

  /** Shirts fall through to the default badge pair. */
  lemma ShirtTags(p: Product)
    requires p.category == ShirtName
    ensures TagForProduct(p) == ["Vintage", "Last piece"]
  {
    ShirtWords();
  }

  lemma JacketTags(p: Product)
    requires p.category == JacketName
    ensures TagForProduct(p) == ["Premium", "Vintage"]
  {
    JacketWords();
  }

  lemma ShoeTags(p: Product)
    requires p.category == ShoeName
    ensures TagForProduct(p) == ["Rare", "Vintage"]
  {
    ShoeWords();
  }

  lemma ToteTags(p: Product)
    requires p.category == ToteName
    ensures TagForProduct(p) == ["Classic", "Vintage"]
  {
    ToteWords();
  }

  /** In lines shaped as the shop's, the badge pair of a product is decided by its line. */
  lemma ShopTags(cats: seq<ProductCategory>)
    requires ShopLines(cats)
    ensures forall p :: p in cats[0].products ==> TagForProduct(p) == ["Vintage", "Last piece"]
    ensures forall p :: p in cats[1].products ==> TagForProduct(p) == ["Premium", "Vintage"]
    ensures forall p :: p in cats[2].products ==> TagForProduct(p) == ["Rare", "Vintage"]
    ensures forall p :: p in cats[3].products ==> TagForProduct(p) == ["Classic", "Vintage"]
  {
    ShopShape(cats);
    forall p | p in cats[0].products ensures TagForProduct(p) == ["Vintage", "Last piece"] {
      ShirtTags(p);
    }
    forall p | p in cats[1].products ensures TagForProduct(p) == ["Premium", "Vintage"] {
      JacketTags(p);
    }
    forall p | p in cats[2].products ensures TagForProduct(p) == ["Rare", "Vintage"] {
      ShoeTags(p);
    }
    forall p | p in cats[3].products ensures TagForProduct(p) == ["Classic", "Vintage"] {
      ToteTags(p);
    }
  }

  /**
   * The badges of the catalogue: shirts get the fallback pair, jackets
   * "Premium", shoes "Rare" and tote bags "Classic".
   */
  lemma CatalogueTags()
    ensures forall p :: p in ProductCategories()[0].products ==> TagForProduct(p) == ["Vintage", "Last piece"]
    ensures forall p :: p in ProductCategories()[1].products ==> TagForProduct(p) == ["Premium", "Vintage"]
    ensures forall p :: p in ProductCategories()[2].products ==> TagForProduct(p) == ["Rare", "Vintage"]
    ensures forall p :: p in ProductCategories()[3].products ==> TagForProduct(p) == ["Classic", "Vintage"]
  {
    ShopTags(ProductCategories());
  }
}
