/**
 * The product browser of the storefront page: a free-text search over
 * product and category names, a category selection toggled from the
 * category buttons, and `filteredCategories`, which narrows every category
 * to its matching products and then keeps the non-empty categories the
 * selection admits.
 */
module Filtering {
  import opened Text
  import opened Catalog
  import opened Sequences

  // ---------------------------------------------------------------------
  // Search
  // ---------------------------------------------------------------------

  /**
   * `searchQuery.trim().toLowerCase()`: the lower-cased infix left after
   * cutting off whitespace at both ends.
   */
  function NormaliseQuery(query: string): (q: string)
    ensures exists i, j :: TrimBounds(query, i, j) && q == ToLower(query[i..j])
    ensures forall k :: 0 <= k < |q| ==> !IsUpperAscii(q[k])
    ensures |q| > 0 ==> !IsWhitespace(q[0]) && !IsWhitespace(q[|q| - 1])
    ensures q == "" <==> forall k :: 0 <= k < |query| ==> IsWhitespace(query[k])
  {
    var t := Trim(query);
    LoweredTrim(query, t);
    ToLower(t)
  }

  lemma LoweredTrim(query: string, t: string)
    requires t == Trim(query)
    ensures exists i, j :: TrimBounds(query, i, j) && ToLower(t) == ToLower(query[i..j])
    ensures |ToLower(t)| > 0 ==> !IsWhitespace(ToLower(t)[0]) && !IsWhitespace(ToLower(t)[|t| - 1])
    ensures ToLower(t) == "" <==> forall k :: 0 <= k < |query| ==> IsWhitespace(query[k])
  {
    var i, j :| TrimBounds(query, i, j) && t == query[i..j];
    var q := ToLower(t);
    assert |q| == |t|;
    if |t| > 0 {
      assert q[0] == LowerChar(t[0]) && q[|t| - 1] == LowerChar(t[|t| - 1]);
    }
  }

  /** Normalising a query that is already normalised changes nothing. */
  lemma NormaliseIdempotent(query: string)
    ensures NormaliseQuery(NormaliseQuery(query)) == NormaliseQuery(query)
  {
    var q := NormaliseQuery(query);
    TrimKeepsTrimmed(q);
    ToLowerIdempotent(Trim(query));
  }

  /**
   * The product test of `filteredCategories`: everything passes an empty
   * query; otherwise the lower-cased product name or category name must
   * include the query. The `!q` guard changes nothing, since every name
   * includes the empty string.
   */
  function ProductMatches(p: Product, categoryName: string, q: string): (m: bool)
    ensures m <==> Contains(ToLower(p.name), q) || Contains(ToLower(categoryName), q)
  {
    ContainsEmpty(ToLower(p.name));
    if q == "" then true
    else Contains(ToLower(p.name), q) || Contains(ToLower(categoryName), q)
  }

  /** A query found in the category's name keeps every product of the category. */
  lemma CategoryNameMatchKeepsAll(c: ProductCategory, q: string)
    requires Contains(ToLower(c.name), q)
    ensures NarrowCategory(c, q) == c
  {
  }

  // ---------------------------------------------------------------------
  // Narrowing and selection
  // ---------------------------------------------------------------------

  /** The `map` step: the category with only the products that match `q`. */
  function NarrowCategory(c: ProductCategory, q: string): (r: ProductCategory)
    ensures r.name == c.name && r.price == c.price && r.description == c.description && r.sizes == c.sizes
    ensures IsSubsequence(r.products, c.products)
    ensures forall p :: p in r.products <==> p in c.products && ProductMatches(p, c.name, q)
    ensures forall p :: multiset(r.products)[p] == if ProductMatches(p, c.name, q) then multiset(c.products)[p] else 0
    ensures q == "" ==> r == c
  {
    var keep := (p: Product) => ProductMatches(p, c.name, q);
    FilterFacts(c.products, keep);
    c.(products := Filter(c.products, keep))
  }

  /**
   * Every category narrowed in place: the list keeps its length, order and
   * names, and each category keeps its other fields while its products are
   * cut down to the matching ones, every copy of each kept.
   */
  function NarrowAll(cats: seq<ProductCategory>, q: string): (r: seq<ProductCategory>)
    ensures |r| == |cats| && forall i :: 0 <= i < |cats| ==> r[i].name == cats[i].name
    ensures forall i :: 0 <= i < |cats| ==>
      && r[i].(products := cats[i].products) == cats[i]
      && IsSubsequence(r[i].products, cats[i].products)
      && forall p :: multiset(r[i].products)[p] == if ProductMatches(p, cats[i].name, q) then multiset(cats[i].products)[p] else 0
  {
    seq(|cats|, i requires 0 <= i < |cats| => NarrowCategory(cats[i], q))
  }

  /** The `filter` step: a category is shown when it has products and the selection admits it. */
  predicate Shown(c: ProductCategory, selected: string) {
    |c.products| > 0 && (selected == "" || c.name == selected)
  }

  /** The selection step alone: the categories that are shown, in order, each as often as it occurs. */
  function SelectShown(narrowed: seq<ProductCategory>, selected: string): (r: seq<ProductCategory>)
    ensures IsSubsequence(r, narrowed)
    ensures forall c :: c in r <==> c in narrowed && Shown(c, selected)
    ensures forall c :: multiset(r)[c] == if Shown(c, selected) then multiset(narrowed)[c] else 0
  {
    var keep := (c: ProductCategory) => Shown(c, selected);
    FilterFacts(narrowed, keep);
    Filter(narrowed, keep)
  }

  /**
   * `filteredCategories`: the narrowed categories that are non-empty and
   * admitted by the selection, in catalogue order.
   */
  function FilteredCategories(cats: seq<ProductCategory>, searchQuery: string, selected: string)
    : (r: seq<ProductCategory>)
    ensures var narrowed := NarrowAll(cats, NormaliseQuery(searchQuery));
      && IsSubsequence(r, narrowed)
      && (forall c :: c in r <==> c in narrowed && Shown(c, selected))
      && forall c :: multiset(r)[c] == if Shown(c, selected) then multiset(narrowed)[c] else 0
    ensures forall c :: c in r ==> |c.products| > 0 && (selected == "" || c.name == selected)
  {
    SelectShown(NarrowAll(cats, NormaliseQuery(searchQuery)), selected)
  }

  /**
   * Every shown product matches the query and comes from the category it is
   * shown under; every matching product of an admitted category is shown.
   */
  lemma FilteredProductsExact(cats: seq<ProductCategory>, searchQuery: string, selected: string, i: int, p: Product)
    requires 0 <= i < |cats|
    ensures var q := NormaliseQuery(searchQuery);
      p in cats[i].products && ProductMatches(p, cats[i].name, q) && (selected == "" || cats[i].name == selected)
      <==> exists c :: c in FilteredCategories(cats, searchQuery, selected) && c == NarrowCategory(cats[i], q) && p in c.products
  {
    var q := NormaliseQuery(searchQuery);
    var c := NarrowCategory(cats[i], q);
    assert NarrowAll(cats, q)[i] == c;
  }

  /** Category names are distinct, as they are in the catalogue. */
  predicate NamesDistinct(cats: seq<ProductCategory>) {
    forall i, j :: 0 <= i < j < |cats| ==> cats[i].name != cats[j].name
  }

  /**
   * Selecting a category shows that category alone, narrowed by the search,
   * or nothing when none of its products matches.
   */
  lemma SelectedCategoryOnly(cats: seq<ProductCategory>, searchQuery: string, k: int)
    requires NamesDistinct(cats) && 0 <= k < |cats| && cats[k].name != ""
    ensures var c := NarrowCategory(cats[k], NormaliseQuery(searchQuery));
      FilteredCategories(cats, searchQuery, cats[k].name) == if |c.products| > 0 then [c] else []
  {
    var selected := cats[k].name;
    var narrowed := NarrowAll(cats, NormaliseQuery(searchQuery));
    var keep := (c: ProductCategory) => Shown(c, selected);
    forall i | 0 <= i < |narrowed| && i != k
      ensures !keep(narrowed[i])
    {
      assert narrowed[i].name == cats[i].name;
    }
    if |narrowed[k].products| > 0 {
      FilterKeepsOne(narrowed, keep, k);
    } else {
      FilterKeepsNone(narrowed, keep);
    }
  }

  /** Selecting a name no category carries shows nothing. */
  lemma UnknownSelectionShowsNothing(cats: seq<ProductCategory>, searchQuery: string, selected: string)
    requires selected != ""
    requires forall i :: 0 <= i < |cats| ==> cats[i].name != selected
    ensures FilteredCategories(cats, searchQuery, selected) == []
  {
    var narrowed := NarrowAll(cats, NormaliseQuery(searchQuery));
    var keep := (c: ProductCategory) => Shown(c, selected);
    assert forall i :: 0 <= i < |narrowed| ==> narrowed[i].name == cats[i].name;
    FilterKeepsNone(narrowed, keep);
  }

  /** With a blank search and no selection, every non-empty category is shown whole, in catalogue order. */
  lemma BlankSearchShowsAll(cats: seq<ProductCategory>, searchQuery: string)
    requires forall k :: 0 <= k < |searchQuery| ==> IsWhitespace(searchQuery[k])
    ensures FilteredCategories(cats, searchQuery, "") == Filter(cats, (c: ProductCategory) => |c.products| > 0)
  {
    var narrowed := NarrowAll(cats, NormaliseQuery(searchQuery));
    assert narrowed == cats;
    FilterCongruent(cats, (c: ProductCategory) => Shown(c, ""), (c: ProductCategory) => |c.products| > 0);
  }

  /** The shop opens on the whole catalogue. */
  lemma CatalogueUnfiltered()
    ensures FilteredCategories(ProductCategories(), "", "") == ProductCategories()
  {
    var cats := ProductCategories();
    assert |cats[0].products| > 0 && |cats[1].products| > 0 && |cats[2].products| > 0 && |cats[3].products| > 0;
    NoEmptyCategoryShowsAll(cats);
  }

  /** Without empty categories, a blank search and no selection show the whole list. */
  lemma NoEmptyCategoryShowsAll(cats: seq<ProductCategory>)
    requires forall i :: 0 <= i < |cats| ==> |cats[i].products| > 0
    ensures FilteredCategories(cats, "", "") == cats
  {
    var nonEmpty := (c: ProductCategory) => |c.products| > 0;
    BlankSearchShowsAll(cats, "");
    assert forall i :: 0 <= i < |cats| ==> nonEmpty(cats[i]);
  }

  // ---------------------------------------------------------------------
  // The category buttons
  // ---------------------------------------------------------------------

  /** A category button: selects its category, or clears the selection when it was already selected. */
  function ToggleCategory(prev: string, name: string): (next: string)
    ensures next == "" || next == name
    ensures name != "" ==> (next == name <==> prev != name)
  {
    if prev == name then "" else name
  }

  /** From "All" or from the button's own category, pressing the button twice comes back. */
  lemma ToggleTwice(prev: string, name: string)
    requires prev == "" || prev == name
    ensures ToggleCategory(ToggleCategory(prev, name), name) == prev
  {
  }

  /** What the user can do to the selection: press "All Products" (or "View all categories"), or a category button. */
  datatype SelectionEvent = ShowAll | Toggle(name: string)

  /** The selection after one press: "All" clears it, a category button toggles its category. */
  function Apply(selected: string, e: SelectionEvent): (next: string)
    ensures next == "" || (e.Toggle? && next == e.name)
    ensures e.Toggle? && e.name != "" ==> (next == e.name <==> selected != e.name)
  {
    match e
    case ShowAll => ""
    case Toggle(name) => ToggleCategory(selected, name)
  }

  /** The selection after a sequence of presses: the start, "All", or the name on one of the buttons pressed. */
  function Run(selected: string, events: seq<SelectionEvent>): (final: string)
    ensures final == selected || final == "" || exists k :: 0 <= k < |events| && events[k] == Toggle(final)
    decreases |events|
  {
    if |events| == 0 then selected
    else
      var next := Apply(selected, events[0]);
      var rest := events[1..];
      var final := Run(next, rest);
      assert forall k :: 0 <= k < |rest| ==> rest[k] == events[k + 1];
      assert final == next ==> final == "" || events[0] == Toggle(final);
      final
  }

  /** Pressing one sequence of buttons and then another is pressing them all in turn. */
  lemma {:induction false} RunAppend(selected: string, first: seq<SelectionEvent>, second: seq<SelectionEvent>)
    ensures Run(selected, first + second) == Run(Run(selected, first), second)
    decreases |first|
  {
    if |first| == 0 {
      assert first + second == second;
    } else {
      assert (first + second)[0] == first[0] && (first + second)[1..] == first[1..] + second;
      RunAppend(Apply(selected, first[0]), first[1..], second);
    }
  }

  /** Whatever came before, pressing "All" last shows every category, and a button pressed last selects its category unless it was already selected. */
  lemma RunLastPress(selected: string, events: seq<SelectionEvent>, e: SelectionEvent)
    ensures e == ShowAll ==> Run(selected, events + [e]) == ""
    ensures e.Toggle? && e.name != "" ==>
      (Run(selected, events + [e]) == e.name <==> Run(selected, events) != e.name)
  {
    RunAppend(selected, events, [e]);
    var before := Run(selected, events);
    assert Run(before, [e]) == Run(Apply(before, e), []);
  }

  /** The selection is "All" or the name of a category of `cats`. */
  predicate KnownSelection(selected: string, cats: seq<ProductCategory>) {
    selected == "" || exists i :: 0 <= i < |cats| && cats[i].name == selected
  }

  /** Buttons named after categories keep the selection "All" or one of those categories. */
  lemma RunKeepsKnown(selected: string, events: seq<SelectionEvent>, cats: seq<ProductCategory>)
    requires KnownSelection(selected, cats)
    requires forall k :: 0 <= k < |events| && events[k].Toggle? ==> KnownSelection(events[k].name, cats)
    ensures KnownSelection(Run(selected, events), cats)
  {
    var final := Run(selected, events);
    if final != selected && final != "" {
      var k :| 0 <= k < |events| && events[k] == Toggle(final);
      assert KnownSelection(events[k].name, cats);
    }
  }

  /**
   * With distinct category names, whatever buttons are pressed, the selection
   * is "All" (every non-empty category the search leaves) or at most one
   * category is shown.
   */
  lemma SelectionShowsOneOrAll(cats: seq<ProductCategory>, events: seq<SelectionEvent>, searchQuery: string)
    requires NamesDistinct(cats)
    requires forall k :: 0 <= k < |events| && events[k].Toggle? ==> KnownSelection(events[k].name, cats)
    ensures var selected := Run("", events);
      selected == "" || |FilteredCategories(cats, searchQuery, selected)| <= 1
  {
    RunKeepsKnown("", events, cats);
    var selected := Run("", events);
    if selected != "" {
      var k :| 0 <= k < |cats| && cats[k].name == selected;
      SelectedCategoryOnly(cats, searchQuery, k);
    }
  }

  /** The four category names of the shop are distinct. */
  lemma CatalogueNamesDistinct()
    ensures NamesDistinct(ProductCategories())
  {
    var cats := ProductCategories();
    assert cats[0].name == ShirtName && cats[1].name == JacketName;
    assert cats[2].name == ShoeName && cats[3].name == ToteName;
    assert ShirtName[0] == 'C' && JacketName[0] == 'F' && ShoeName[0] == 'S' && ToteName[0] == 'T';
  }

  /**
   * Whatever the buttons pressed, the catalogue page's selection is "All"
   * (every non-empty category the search leaves) or it shows at most one
   * category.
   */
  lemma CatalogueSelectionShowsOneOrAll(events: seq<SelectionEvent>, searchQuery: string)
    requires forall k :: 0 <= k < |events| && events[k].Toggle? ==> KnownSelection(events[k].name, ProductCategories())
    ensures var selected := Run("", events);
      selected == "" || |FilteredCategories(ProductCategories(), searchQuery, selected)| <= 1
  {
    CatalogueNamesDistinct();
    SelectionShowsOneOrAll(ProductCategories(), events, searchQuery);
  }
}
