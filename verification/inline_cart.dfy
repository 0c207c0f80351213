/**
 * The second copy of the cart engine, written inline in the storefront page.
 * Adding merges on the key `${id}-${size || ""}`, which names the same line
 * as the hook's key. Removing and updating instead compare the product id
 * and the stored size with strict equality, so a missing size and the empty
 * size are different there although adding treats them as one line.
 */
module InlineCart {
  import opened Optional
  import opened Text
  import opened Catalog
  import opened Sequences
  import opened Cart

  /** The page's `cartKeyOf(id, size)`: `${id}-${size || ""}`. */
  function InlineKeyOf(id: int, size: Option<string>): (k: string)
    ensures var n := |IntToString(id)|;
      && |k| == n + 1 + |NormalSize(size)| && SeparatorIndex(k, '-', 1) == n
      && k[..n] == IntToString(id) && k[n] == '-' && k[n + 1..] == NormalSize(size)
  {
    var head := IntToString(id);
    SeparatorAfterHead(head, '-', NormalSize(size), 1);
    assert head + "-" + NormalSize(size) == head + ['-'] + NormalSize(size);
    head + "-" + NormalSize(size)
  }

  function InlineItemKey(item: CartItem): string {
    InlineKeyOf(item.product.id, item.selectedSize)
  }

  /** The page's key names the same line as the hook's key. */
  lemma InlineKeyInjective(a: int, s: Option<string>, b: int, t: Option<string>)
    ensures InlineKeyOf(a, s) == InlineKeyOf(b, t) <==> a == b && NormalSize(s) == NormalSize(t)
    ensures InlineKeyOf(a, s) == InlineKeyOf(b, t) <==> CartKeyOf(a, s) == CartKeyOf(b, t)
  {
    if InlineKeyOf(a, s) == InlineKeyOf(b, t) {
      SplitAtSeparator(IntToString(a), IntToString(b), '-', NormalSize(s), NormalSize(t));
      IntToStringInjective(a, b);
    }
    CartKeyInjective(a, s, b, t);
  }

  /** The strict test of the page's remove and update: same id and the very same stored size. */
  predicate StrictMatch(item: CartItem, productId: int, size: Option<string>) {
    item.product.id == productId && item.selectedSize == size
  }

  // ---------------------------------------------------------------------
  // Operations
  // ---------------------------------------------------------------------

  /** An item is matched by the page's key exactly when it is on the line the key names. */
  lemma AllInlineKeysMatch(id: int, size: Option<string>)
    ensures forall item :: InlineItemKey(item) == InlineKeyOf(id, size) <==> LineOf(item) == (id, NormalSize(size))
  {
    forall item
      ensures InlineItemKey(item) == InlineKeyOf(id, size) <==> LineOf(item) == (id, NormalSize(size))
    {
      InlineKeyInjective(item.product.id, item.selectedSize, id, size);
    }
  }

  /**
   * The page's `addToCart(product, size)`: one more piece on the line when an
   * item already has the key, otherwise a new line of quantity 1 at the end.
   */
  function AddToCart(cart: seq<CartItem>, product: Product, size: Option<string>): (r: seq<CartItem>)
    ensures var line := (product.id, NormalSize(size));
      && |r| == (if HasLine(cart, line) then |cart| else |cart| + 1)
      && (forall i :: 0 <= i < |cart| ==>
            r[i].product == cart[i].product && r[i].selectedSize == cart[i].selectedSize
            && r[i].quantity == cart[i].quantity + (if LineOf(cart[i]) == line then 1 else 0))
      && (!HasLine(cart, line) ==> r[|cart|] == CartItem(product, 1, size))
  {
    var key := InlineKeyOf(product.id, size);
    AllInlineKeysMatch(product.id, size);
    if Find(cart, (item: CartItem) => InlineItemKey(item) == key).Some? then
      seq(|cart|, i requires 0 <= i < |cart| =>
        if InlineItemKey(cart[i]) == key then cart[i].(quantity := cart[i].quantity + 1) else cart[i])
    else cart + [CartItem(product, 1, size)]
  }

  /** The page's add and the hook's add give the same cart on every input. */
  lemma AddAgreesWithHook(cart: seq<CartItem>, product: Product, size: Option<string>)
    ensures AddToCart(cart, product, size) == Cart.AddToCart(cart, product, size)
  {
    var r, h := AddToCart(cart, product, size), Cart.AddToCart(cart, product, size);
    assert |r| == |h|;
    forall i | 0 <= i < |r|
      ensures r[i] == h[i]
    {
    }
  }

  /**
   * The page's `removeFromCart(productId, size)`: drops the items whose id
   * and stored size are strictly equal to the arguments, keeping the rest in
   * order.
   */
  function RemoveFromCart(cart: seq<CartItem>, productId: int, size: Option<string>): (r: seq<CartItem>)
    ensures IsSubsequence(r, cart)
    ensures forall x :: x in r <==> x in cart && !StrictMatch(x, productId, size)
    ensures forall x :: multiset(r)[x] == if StrictMatch(x, productId, size) then 0 else multiset(cart)[x]
  {
    var keep := (item: CartItem) => !StrictMatch(item, productId, size);
    FilterMembers(cart, keep);
    FilterInOrder(cart, keep);
    FilterMultiset(cart, keep);
    Filter(cart, keep)
  }

  /**
   * The page's `updateQuantity(productId, size, quantity)`: zero or less
   * removes as above; a positive quantity replaces the quantity of the
   * strictly matching items and changes nothing else.
   */
  function UpdateQuantity(cart: seq<CartItem>, productId: int, size: Option<string>, quantity: int): (r: seq<CartItem>)
    ensures quantity <= 0 ==>
      && IsSubsequence(r, cart)
      && (forall x :: x in r <==> x in cart && !StrictMatch(x, productId, size))
      && forall x :: multiset(r)[x] == if StrictMatch(x, productId, size) then 0 else multiset(cart)[x]
    ensures quantity > 0 ==>
      && |r| == |cart|
      && forall i :: 0 <= i < |cart| ==>
           r[i].product == cart[i].product && r[i].selectedSize == cart[i].selectedSize
           && r[i].quantity == (if StrictMatch(cart[i], productId, size) then quantity else cart[i].quantity)
  {
    if quantity <= 0 then RemoveFromCart(cart, productId, size)
    else
      seq(|cart|, i requires 0 <= i < |cart| =>
        if StrictMatch(cart[i], productId, size) then cart[i].(quantity := quantity) else cart[i])
  }

  // ---------------------------------------------------------------------
  // Properties
  // ---------------------------------------------------------------------

  /** Adding the same product and size twice gives one line of quantity 2; two sizes give two lines. */
  lemma AddMergesOnKey(product: Product, size: Option<string>, s: string, t: string)
    requires s != t
    ensures var c := AddToCart(AddToCart([], product, size), product, size);
      |c| == 1 && c[0] == CartItem(product, 2, size)
    ensures var c := AddToCart(AddToCart([], product, Some(s)), product, Some(t));
      c == [CartItem(product, 1, Some(s)), CartItem(product, 1, Some(t))]
  {
    AddAgreesWithHook([], product, size);
    AddAgreesWithHook(Cart.AddToCart([], product, size), product, size);
    AddAgreesWithHook([], product, Some(s));
    AddAgreesWithHook(Cart.AddToCart([], product, Some(s)), product, Some(t));
    AddTwiceMerges(product, size);
    AddTwoSizesSeparates(product, s, t);
  }

  /** The page's folds move like the hook's: one more piece, and the price of the line that grew. */
  lemma AddAggregatesInline(cart: seq<CartItem>, product: Product, size: Option<string>)
    requires UniqueLines(cart)
    ensures var r := AddToCart(cart, product, size);
      && CartCount(r) == CartCount(cart) + 1
      && (!HasLine(cart, (product.id, NormalSize(size))) ==> CartTotal(r) == CartTotal(cart) + product.price)
  {
    AddAgreesWithHook(cart, product, size);
    Cart.AddAggregates(cart, product, size);
  }

  /** A strict match is always a match on the line, so the page never removes more than the hook. */
  lemma RemoveKeepsMoreThanHook(cart: seq<CartItem>, productId: int, size: Option<string>)
    ensures forall x :: x in Cart.RemoveFromCart(cart, productId, size) ==> x in RemoveFromCart(cart, productId, size)
  {
  }

  /** For a non-empty size both copies remove the same items. */
  lemma RemoveAgreesOnNamedSize(cart: seq<CartItem>, productId: int, s: string)
    requires s != ""
    ensures RemoveFromCart(cart, productId, Some(s)) == Cart.RemoveFromCart(cart, productId, Some(s))
  {
    var size := Some(s);
    var key := CartKeyOf(productId, size);
    var strict := (item: CartItem) => !StrictMatch(item, productId, size);
    var keyed := (item: CartItem) => ItemKey(item) != key;
    AllItemKeysMatch(productId, size);
    forall i | 0 <= i < |cart|
      ensures strict(cart[i]) == keyed(cart[i])
    {
      if LineOf(cart[i]) == (productId, s) {
        assert cart[i].selectedSize == size;
      }
    }
    FilterCongruent(cart, strict, keyed);
  }

  /**
   * Where the copies part: an item added without a size is not removed by
   * the page when the empty size is passed (nor the other way round), while
   * the hook removes it in both cases.
   */
  lemma RemoveMissesOtherEmptySize(product: Product)
    ensures var c := AddToCart([], product, None);
      && RemoveFromCart(c, product.id, Some("")) == c
      && Cart.RemoveFromCart(c, product.id, Some("")) == []
    ensures var c := AddToCart([], product, Some(""));
      && RemoveFromCart(c, product.id, None) == c
      && Cart.RemoveFromCart(c, product.id, None) == []
  {
    RemoveMissesSize(product, None, Some(""));
    RemoveMissesSize(product, Some(""), None);
  }

  /** A one-line cart whose stored size differs from the passed one, though both read as "". */
  lemma RemoveMissesSize(product: Product, stored: Option<string>, passed: Option<string>)
    requires stored != passed && NormalSize(stored) == "" && NormalSize(passed) == ""
    ensures var c := AddToCart([], product, stored);
      && RemoveFromCart(c, product.id, passed) == c
      && Cart.RemoveFromCart(c, product.id, passed) == []
  {
    AddNewLine([], product, stored);
    var c := [CartItem(product, 1, stored)];
    assert !StrictMatch(c[0], product.id, passed);
    assert RemoveFromCart(c, product.id, passed) == c;
    RemoveExistingLine(c, product.id, passed, 0);
  }

  /** The same gap for updates: the page leaves the unsized line alone, the hook sets it. */
  lemma UpdateMissesOtherEmptySize(product: Product, quantity: int)
    requires quantity > 0
    ensures var c := AddToCart([], product, None);
      && UpdateQuantity(c, product.id, Some(""), quantity) == c
      && Cart.UpdateQuantity(c, product.id, Some(""), quantity) == [CartItem(product, quantity, None)]
  {
    AddNewLine([], product, None);
    var c := [CartItem(product, 1, None)];
    var r := UpdateQuantity(c, product.id, Some(""), quantity);
    assert r[0] == c[0];
    var h := Cart.UpdateQuantity(c, product.id, Some(""), quantity);
    assert h[0] == CartItem(product, quantity, None);
  }

  /**
   * The page always passes an item's own id and stored size back, and then
   * its remove drops exactly that item, as the hook's does.
   */
  lemma RemoveOwnLine(cart: seq<CartItem>, j: int)
    requires UniqueLines(cart) && 0 <= j < |cart|
    ensures RemoveFromCart(cart, cart[j].product.id, cart[j].selectedSize) == cart[..j] + cart[j + 1..]
    ensures RemoveFromCart(cart, cart[j].product.id, cart[j].selectedSize)
         == Cart.RemoveFromCart(cart, cart[j].product.id, cart[j].selectedSize)
  {
    var id, size := cart[j].product.id, cart[j].selectedSize;
    var keep := (item: CartItem) => !StrictMatch(item, id, size);
    forall i | 0 <= i < |cart| && i != j
      ensures keep(cart[i])
    {
      assert LineOf(cart[i]) != LineOf(cart[j]);
    }
    FilterDropsOne(cart, keep, j);
    RemoveExistingLine(cart, id, size, j);
  }

  /** Likewise a positive update from an item's own row sets that item alone. */
  lemma UpdateOwnLine(cart: seq<CartItem>, j: int, quantity: int)
    requires UniqueLines(cart) && 0 <= j < |cart| && quantity > 0
    ensures var r := UpdateQuantity(cart, cart[j].product.id, cart[j].selectedSize, quantity);
      && r[j] == cart[j].(quantity := quantity)
      && forall i :: 0 <= i < |cart| && i != j ==> r[i] == cart[i]
  {
    var r := UpdateQuantity(cart, cart[j].product.id, cart[j].selectedSize, quantity);
    forall i | 0 <= i < |cart| && i != j
      ensures r[i] == cart[i]
    {
      assert LineOf(cart[i]) != LineOf(cart[j]);
    }
  }

  /** A quantity of zero or less has exactly the effect of the page's remove. */
  lemma UpdateNonPositiveRemoves(cart: seq<CartItem>, productId: int, size: Option<string>, quantity: int)
    requires quantity <= 0
    ensures UpdateQuantity(cart, productId, size, quantity) == RemoveFromCart(cart, productId, size)
  {
  }

  /** The page's operations keep lines unique and quantities positive. */
  lemma InlinePreservesValid(cart: seq<CartItem>, product: Product, productId: int, size: Option<string>, quantity: int)
    requires Valid(cart)
    ensures Valid(AddToCart(cart, product, size))
    ensures Valid(RemoveFromCart(cart, productId, size))
    ensures Valid(UpdateQuantity(cart, productId, size, quantity))
  {
    AddAgreesWithHook(cart, product, size);
    AddPreservesValid(cart, product, size);
    InlineRemovePreservesValid(cart, productId, size);
    if quantity > 0 {
      InlineSetPreservesValid(cart, productId, size, quantity);
    }
  }

  lemma InlineRemovePreservesValid(cart: seq<CartItem>, productId: int, size: Option<string>)
    requires Valid(cart)
    ensures Valid(RemoveFromCart(cart, productId, size))
  {
    var r := RemoveFromCart(cart, productId, size);
    forall i, j | 0 <= i < j < |r|
      ensures LineOf(r[i]) != LineOf(r[j])
    {
      SubsequencePairs(r, cart, i, j);
    }
    forall i | 0 <= i < |r|
      ensures r[i].quantity >= 1
    {
      assert r[i] in cart;
    }
  }

  lemma InlineSetPreservesValid(cart: seq<CartItem>, productId: int, size: Option<string>, quantity: int)
    requires Valid(cart) && quantity > 0
    ensures Valid(UpdateQuantity(cart, productId, size, quantity))
  {
    var u := UpdateQuantity(cart, productId, size, quantity);
    assert forall i :: 0 <= i < |cart| ==> LineOf(u[i]) == LineOf(cart[i]);
  }
}
