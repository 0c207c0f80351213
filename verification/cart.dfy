/**
 * The cart engine of the `useCart` hook: an ordered list of line items,
 * each a product snapshot with a quantity and an optional size, kept under
 * the string key `${id}__${size ?? ""}`. Every setter is modelled as a pure
 * function from the previous cart to the next one.
 */
module Cart {
  import opened Optional
  import opened Text
  import opened Catalog
  import opened Sequences

  /** A product snapshot taken when it was added, with its quantity and chosen size. */
  datatype CartItem = CartItem(product: Product, quantity: int, selectedSize: Option<string>)

  // ---------------------------------------------------------------------
  // Line identity
  // ---------------------------------------------------------------------

  /** `size ?? ""` (on strings `size || ""` is the same): a missing size reads as "". */
  function NormalSize(size: Option<string>): (s: string)
    ensures size.Some? && size.value != "" ==> s == size.value
    ensures size.None? || size == Some("") <==> s == ""
  {
    size.GetOr("")
  }

  /** `cartKeyOf(id, size)`: the string under which a line is matched. */
  function CartKeyOf(id: int, size: Option<string>): (k: string)
    ensures var n := |IntToString(id)|;
      && |k| == n + 2 + |NormalSize(size)| && SeparatorIndex(k, '_', 1) == n
      && k[..n] == IntToString(id) && k[n..n + 2] == "__" && k[n + 2..] == NormalSize(size)
  {
    var head, tail := IntToString(id), "_" + NormalSize(size);
    SeparatorAfterHead(head, '_', tail, 1);
    assert head + "__" + NormalSize(size) == head + ['_'] + tail;
    head + "__" + NormalSize(size)
  }

  function ItemKey(item: CartItem): string {
    CartKeyOf(item.product.id, item.selectedSize)
  }

  /** What a line is identified by: the product id and the normalised size. */
  function LineOf(item: CartItem): (int, string) {
    (item.product.id, NormalSize(item.selectedSize))
  }

  /** Two keys are equal exactly when they name the same product id and the same normalised size. */
  lemma CartKeyInjective(a: int, s: Option<string>, b: int, t: Option<string>)
    ensures CartKeyOf(a, s) == CartKeyOf(b, t) <==> a == b && NormalSize(s) == NormalSize(t)
  {
    if CartKeyOf(a, s) == CartKeyOf(b, t) {
      var x, y := IntToString(a), IntToString(b);
      assert CartKeyOf(a, s) == x + ['_'] + ("_" + NormalSize(s));
      assert CartKeyOf(b, t) == y + ['_'] + ("_" + NormalSize(t));
      SplitAtSeparator(x, y, '_', "_" + NormalSize(s), "_" + NormalSize(t));
      IntToStringInjective(a, b);
      assert NormalSize(s) == ("_" + NormalSize(s))[1..] == ("_" + NormalSize(t))[1..] == NormalSize(t);
    }
  }

  /** An item is matched by a key exactly when it is on the line the key names. */
  lemma ItemKeyMatches(item: CartItem, id: int, size: Option<string>)
    ensures ItemKey(item) == CartKeyOf(id, size) <==> LineOf(item) == (id, NormalSize(size))
  {
    CartKeyInjective(item.product.id, item.selectedSize, id, size);
  }

  lemma AllItemKeysMatch(id: int, size: Option<string>)
    ensures forall item :: ItemKey(item) == CartKeyOf(id, size) <==> LineOf(item) == (id, NormalSize(size))
  {
    forall item
      ensures ItemKey(item) == CartKeyOf(id, size) <==> LineOf(item) == (id, NormalSize(size))
    {
      ItemKeyMatches(item, id, size);
    }
  }

  /** A missing size and the empty size name the same line. */
  lemma MissingSizeIsEmptySize(id: int)
    ensures CartKeyOf(id, None) == CartKeyOf(id, Some(""))
  {
  }

  // ---------------------------------------------------------------------
  // Invariants
  // ---------------------------------------------------------------------

  predicate HasLine(cart: seq<CartItem>, line: (int, string)) {
    exists i :: 0 <= i < |cart| && LineOf(cart[i]) == line
  }

  predicate UniqueLines(cart: seq<CartItem>) {
    forall i, j :: 0 <= i < j < |cart| ==> LineOf(cart[i]) != LineOf(cart[j])
  }

  predicate QuantitiesPositive(cart: seq<CartItem>) {
    forall i :: 0 <= i < |cart| ==> cart[i].quantity >= 1
  }

  /** The cart invariant: no two items share a line and every quantity is at least 1. */
  predicate Valid(cart: seq<CartItem>) {
    UniqueLines(cart) && QuantitiesPositive(cart)
  }

  // ---------------------------------------------------------------------
  // Derived values
  // ---------------------------------------------------------------------

  /** The sum of quantities, as a reference definition. */
  function QuantitySum(items: seq<CartItem>): int {
    if |items| == 0 then 0 else items[0].quantity + QuantitySum(items[1..])
  }

  /** What one line costs: its captured price times its quantity. */
  function LineCost(item: CartItem): int {
    item.product.price * item.quantity
  }

  /** The sum of the line costs, as a reference definition. */
  function LineTotalSum(items: seq<CartItem>): int {
    if |items| == 0 then 0 else LineCost(items[0]) + LineTotalSum(items[1..])
  }

  /** `items.reduce((s, i) => s + i.quantity, acc)`. */
  function CountFrom(items: seq<CartItem>, acc: int): (s: int)
    ensures s == acc + QuantitySum(items)
  {
    if |items| == 0 then acc else CountFrom(items[1..], acc + items[0].quantity)
  }

  /** `items.reduce((s, i) => s + i.price * i.quantity, acc)`. */
  function TotalFrom(items: seq<CartItem>, acc: int): (s: int)
    ensures s == acc + LineTotalSum(items)
  {
    if |items| == 0 then acc else TotalFrom(items[1..], acc + LineCost(items[0]))
  }

  /** `cartCount`: the number of pieces in the cart, at least one per line in a valid cart. */
  function CartCount(cart: seq<CartItem>): (n: int)
    ensures n == QuantitySum(cart)
    ensures QuantitiesPositive(cart) ==> n >= |cart|
  {
    QuantityAtLeastLength(cart);
    CountFrom(cart, 0)
  }

  /** `cartTotal`: what the cart costs at the captured prices. */
  function CartTotal(cart: seq<CartItem>): (t: int)
    ensures t == LineTotalSum(cart)
  {
    TotalFrom(cart, 0)
  }

  lemma {:induction false} QuantityAtLeastLength(cart: seq<CartItem>)
    ensures QuantitiesPositive(cart) ==> QuantitySum(cart) >= |cart|
  {
    if |cart| > 0 {
      QuantityAtLeastLength(cart[1..]);
    }
  }

  lemma {:induction false} SumsOfAppend(a: seq<CartItem>, b: seq<CartItem>)
    ensures QuantitySum(a + b) == QuantitySum(a) + QuantitySum(b)
    ensures LineTotalSum(a + b) == LineTotalSum(a) + LineTotalSum(b)
  {
    if |a| > 0 {
      assert (a + b)[1..] == a[1..] + b;
      SumsOfAppend(a[1..], b);
    } else {
      assert a + b == b;
    }
  }

  /** Changing one item changes the sums by exactly that item's contribution. */
  lemma {:induction false} SumsOfReplace(a: seq<CartItem>, b: seq<CartItem>, j: int)
    requires |a| == |b| && 0 <= j < |a|
    requires forall i :: 0 <= i < |a| && i != j ==> a[i] == b[i]
    ensures QuantitySum(b) == QuantitySum(a) - a[j].quantity + b[j].quantity
    ensures LineTotalSum(b) == LineTotalSum(a) - LineCost(a[j]) + LineCost(b[j])
  {
    if j > 0 {
      SumsOfReplace(a[1..], b[1..], j - 1);
    } else {
      assert a[1..] == b[1..];
    }
  }

  lemma Distribute(price: int, x: int, y: int)
    ensures price * x - price * y == price * (x - y)
  {
  }

  /** Giving one item a new quantity moves the sums by the quantity difference. */
  lemma SumsOfSetQuantity(a: seq<CartItem>, b: seq<CartItem>, j: int, quantity: int)
    requires |a| == |b| && 0 <= j < |a|
    requires forall i :: 0 <= i < |a| && i != j ==> a[i] == b[i]
    requires b[j] == a[j].(quantity := quantity)
    ensures QuantitySum(b) == QuantitySum(a) - a[j].quantity + quantity
    ensures LineTotalSum(b) == LineTotalSum(a) + a[j].product.price * (quantity - a[j].quantity)
  {
    SumsOfReplace(a, b, j);
    var price, q := a[j].product.price, a[j].quantity;
    assert LineCost(b[j]) == price * quantity && LineCost(a[j]) == price * q;
    Distribute(price, quantity, q);
  }

  /** Dropping one item removes exactly that item's contribution from the sums. */
  lemma SumsOfDrop(cart: seq<CartItem>, j: int)
    requires 0 <= j < |cart|
    ensures QuantitySum(cart[..j] + cart[j + 1..]) == QuantitySum(cart) - cart[j].quantity
    ensures LineTotalSum(cart[..j] + cart[j + 1..]) == LineTotalSum(cart) - LineCost(cart[j])
  {
    var front, back := cart[..j], cart[j + 1..];
    var tail := [cart[j]] + back;
    SplitAround(cart, j);
    SumsOfAppend(front, tail);
    SumsOfAppend(front, back);
    assert QuantitySum(tail) == cart[j].quantity + QuantitySum(back);
    assert LineTotalSum(tail) == LineCost(cart[j]) + LineTotalSum(back);
  }

  // ---------------------------------------------------------------------
  // Operations
  // ---------------------------------------------------------------------

  /** The `prev.map` of `addToCart`: the item under `key` gets one more piece. */
  function Increment(cart: seq<CartItem>, key: string): seq<CartItem> {
    seq(|cart|, i requires 0 <= i < |cart| =>
      if ItemKey(cart[i]) == key then cart[i].(quantity := cart[i].quantity + 1) else cart[i])
  }

  /**
   * `addToCart(product, size)`: one more piece on the line (product id,
   * normalised size) if the cart has it, otherwise a new line with quantity 1
   * appended at the end. The stored size is the one passed, not normalised.
   */
  function AddToCart(cart: seq<CartItem>, product: Product, size: Option<string>): (r: seq<CartItem>)
    ensures var line := (product.id, NormalSize(size));
      && |r| == (if HasLine(cart, line) then |cart| else |cart| + 1)
      && (forall i :: 0 <= i < |cart| ==>
            r[i].product == cart[i].product && r[i].selectedSize == cart[i].selectedSize
            && r[i].quantity == cart[i].quantity + (if LineOf(cart[i]) == line then 1 else 0))
      && (!HasLine(cart, line) ==> r[|cart|] == CartItem(product, 1, size))
  {
    var key := CartKeyOf(product.id, size);
    AllItemKeysMatch(product.id, size);
    if Find(cart, (item: CartItem) => ItemKey(item) == key).Some? then Increment(cart, key)
    else cart + [CartItem(product, 1, size)]
  }

  /**
   * `removeFromCart(productId, size)`: drops every item on the line
   * (productId, normalised size) and keeps the others in their order.
   */
  function RemoveFromCart(cart: seq<CartItem>, productId: int, size: Option<string>): (r: seq<CartItem>)
    ensures IsSubsequence(r, cart)
    ensures forall x :: x in r <==> x in cart && LineOf(x) != (productId, NormalSize(size))
    ensures forall x :: multiset(r)[x] == if LineOf(x) == (productId, NormalSize(size)) then 0 else multiset(cart)[x]
    ensures !HasLine(cart, (productId, NormalSize(size))) ==> r == cart
  {
    var key := CartKeyOf(productId, size);
    var keep := (item: CartItem) => ItemKey(item) != key;
    AllItemKeysMatch(productId, size);
    FilterMembers(cart, keep);
    FilterInOrder(cart, keep);
    FilterMultiset(cart, keep);
    Filter(cart, keep)
  }

  /** The `prev.map` of `updateQuantity`: the item under `key` gets exactly `quantity`. */
  function SetQuantity(cart: seq<CartItem>, key: string, quantity: int): seq<CartItem> {
    seq(|cart|, i requires 0 <= i < |cart| =>
      if ItemKey(cart[i]) == key then cart[i].(quantity := quantity) else cart[i])
  }

  /**
   * `updateQuantity(productId, size, quantity)`: a quantity of zero or less
   * removes the line; a positive one replaces the line's quantity (it is not
   * added to it) and leaves everything else as it was.
   */
  function UpdateQuantity(cart: seq<CartItem>, productId: int, size: Option<string>, quantity: int): (r: seq<CartItem>)
    ensures quantity <= 0 ==>
      && IsSubsequence(r, cart)
      && (forall x :: x in r <==> x in cart && LineOf(x) != (productId, NormalSize(size)))
      && forall x :: multiset(r)[x] == if LineOf(x) == (productId, NormalSize(size)) then 0 else multiset(cart)[x]
    ensures quantity > 0 ==>
      && |r| == |cart|
      && forall i :: 0 <= i < |cart| ==>
           r[i].product == cart[i].product && r[i].selectedSize == cart[i].selectedSize
           && r[i].quantity == (if LineOf(cart[i]) == (productId, NormalSize(size)) then quantity else cart[i].quantity)
  {
    if quantity <= 0 then RemoveFromCart(cart, productId, size)
    else
      AllItemKeysMatch(productId, size);
      SetQuantity(cart, CartKeyOf(productId, size), quantity)
  }

  /** `clearCart()`. */
  function ClearCart(): (r: seq<CartItem>)
    ensures |r| == 0
  {
    []
  }

  /**
   * The cart a session starts with: the stored snapshot when storage yields
   * a non-empty string that parses, otherwise `initial`. Reading storage and
   * parsing are given: `raw` is None when the read fails or finds nothing,
   * and `parse` answers None when the text does not parse. Text that parses
   * to something other than a list of items has no counterpart here.
   */
  function RestoreCart(raw: Option<string>, parse: string -> Option<seq<CartItem>>,
                       initial: seq<CartItem>): (r: seq<CartItem>)
    ensures r == initial || (raw.Some? && parse(raw.value) == Some(r))
    ensures raw.None? || raw == Some("") ==> r == initial
  {
    match raw
    case None => initial
    case Some(text) => if text == "" then initial else parse(text).GetOr(initial)
  }

  // ---------------------------------------------------------------------
  // Properties
  // ---------------------------------------------------------------------

  /** Adding a line the cart does not have appends it with quantity 1 and keeps the earlier items. */
  lemma AddNewLine(cart: seq<CartItem>, product: Product, size: Option<string>)
    requires !HasLine(cart, (product.id, NormalSize(size)))
    ensures AddToCart(cart, product, size) == cart + [CartItem(product, 1, size)]
  {
    var r := AddToCart(cart, product, size);
    assert r[..|cart|] == cart;
    assert r == r[..|cart|] + [r[|cart|]];
  }

  /**
   * Adding a line the cart already has (at index j of a cart with unique
   * lines) increments that item alone and keeps the length and the order.
   */
  lemma AddExistingLine(cart: seq<CartItem>, product: Product, size: Option<string>, j: int)
    requires UniqueLines(cart)
    requires 0 <= j < |cart| && LineOf(cart[j]) == (product.id, NormalSize(size))
    ensures var r := AddToCart(cart, product, size);
      && |r| == |cart|
      && r[j] == cart[j].(quantity := cart[j].quantity + 1)
      && forall i :: 0 <= i < |cart| && i != j ==> r[i] == cart[i]
  {
    var key := CartKeyOf(product.id, size);
    AllItemKeysMatch(product.id, size);
    assert ItemKey(cart[j]) == key;
    var r := Increment(cart, key);
    assert AddToCart(cart, product, size) == r;
    forall i | 0 <= i < |cart| && i != j
      ensures r[i] == cart[i]
    {
      assert LineOf(cart[i]) != LineOf(cart[j]);
    }
  }

  /** Adding with no size and adding with the empty size land on the same line. */
  lemma AddMissingThenEmptySize(cart: seq<CartItem>, product: Product)
    ensures var once := AddToCart(cart, product, None);
      |AddToCart(once, product, Some(""))| == |once|
    ensures var once := AddToCart(cart, product, Some(""));
      |AddToCart(once, product, None)| == |once|
  {
    var line := (product.id, "");
    var once := AddToCart(cart, product, None);
    if !HasLine(cart, line) {
      assert LineOf(once[|cart|]) == line;
    } else {
      var i :| 0 <= i < |cart| && LineOf(cart[i]) == line;
      assert LineOf(once[i]) == line;
    }
    var once' := AddToCart(cart, product, Some(""));
    if !HasLine(cart, line) {
      assert LineOf(once'[|cart|]) == line;
    } else {
      var i :| 0 <= i < |cart| && LineOf(cart[i]) == line;
      assert LineOf(once'[i]) == line;
    }
  }

  /** Adding the same product and size twice to an empty cart gives one line of quantity 2. */
  lemma AddTwiceMerges(product: Product, size: Option<string>)
    ensures var c := AddToCart(AddToCart([], product, size), product, size);
      |c| == 1 && c[0] == CartItem(product, 2, size)
  {
    var once := AddToCart([], product, size);
    AddNewLine([], product, size);
    assert LineOf(once[0]) == (product.id, NormalSize(size));
    AddExistingLine(once, product, size, 0);
  }

  /** The same product in two different sizes occupies two lines. */
  lemma AddTwoSizesSeparates(product: Product, s: string, t: string)
    requires s != t
    ensures var c := AddToCart(AddToCart([], product, Some(s)), product, Some(t));
      c == [CartItem(product, 1, Some(s)), CartItem(product, 1, Some(t))]
  {
    var once := AddToCart([], product, Some(s));
    AddNewLine([], product, Some(s));
    AddNewLine(once, product, Some(t));
  }

  /** Adding raises the count by one and the total by the captured price of the line that grew. */
  lemma AddAggregates(cart: seq<CartItem>, product: Product, size: Option<string>)
    requires UniqueLines(cart)
    ensures var r := AddToCart(cart, product, size);
      && CartCount(r) == CartCount(cart) + 1
      && (!HasLine(cart, (product.id, NormalSize(size))) ==> CartTotal(r) == CartTotal(cart) + product.price)
      && (forall j :: 0 <= j < |cart| && LineOf(cart[j]) == (product.id, NormalSize(size)) ==>
            CartTotal(r) == CartTotal(cart) + cart[j].product.price)
  {
    var line := (product.id, NormalSize(size));
    if HasLine(cart, line) {
      var j :| 0 <= j < |cart| && LineOf(cart[j]) == line;
      AddGrowsLine(cart, product, size, j);
      forall k | 0 <= k < |cart| && LineOf(cart[k]) == line
        ensures k == j
      {
      }
    } else {
      AddNewLine(cart, product, size);
      SumsOfAppend(cart, [CartItem(product, 1, size)]);
    }
  }

  lemma AddGrowsLine(cart: seq<CartItem>, product: Product, size: Option<string>, j: int)
    requires UniqueLines(cart)
    requires 0 <= j < |cart| && LineOf(cart[j]) == (product.id, NormalSize(size))
    ensures var r := AddToCart(cart, product, size);
      && QuantitySum(r) == QuantitySum(cart) + 1
      && LineTotalSum(r) == LineTotalSum(cart) + cart[j].product.price
  {
    var r := AddToCart(cart, product, size);
    AddExistingLine(cart, product, size, j);
    SumsOfSetQuantity(cart, r, j, cart[j].quantity + 1);
  }

  /** Removing a line that sits at index j of a cart with unique lines drops exactly that item. */
  lemma RemoveExistingLine(cart: seq<CartItem>, productId: int, size: Option<string>, j: int)
    requires UniqueLines(cart)
    requires 0 <= j < |cart| && LineOf(cart[j]) == (productId, NormalSize(size))
    ensures RemoveFromCart(cart, productId, size) == cart[..j] + cart[j + 1..]
  {
    var key := CartKeyOf(productId, size);
    var keep := (item: CartItem) => ItemKey(item) != key;
    AllItemKeysMatch(productId, size);
    forall i | 0 <= i < |cart| && i != j
      ensures keep(cart[i])
    {
      assert LineOf(cart[i]) != LineOf(cart[j]);
    }
    FilterDropsOne(cart, keep, j);
  }

  /** Removing twice is removing once. */
  lemma RemoveIdempotent(cart: seq<CartItem>, productId: int, size: Option<string>)
    ensures var once := RemoveFromCart(cart, productId, size);
      RemoveFromCart(once, productId, size) == once
  {
  }

  /** Removing a line takes its pieces out of the count and its cost out of the total. */
  lemma RemoveAggregates(cart: seq<CartItem>, productId: int, size: Option<string>, j: int)
    requires UniqueLines(cart)
    requires 0 <= j < |cart| && LineOf(cart[j]) == (productId, NormalSize(size))
    ensures var r := RemoveFromCart(cart, productId, size);
      && CartCount(r) == CartCount(cart) - cart[j].quantity
      && CartTotal(r) == CartTotal(cart) - cart[j].product.price * cart[j].quantity
  {
    RemoveExistingLine(cart, productId, size, j);
    SumsOfDrop(cart, j);
  }

  /** A quantity of zero or less has exactly the effect of removing the line. */
  lemma UpdateNonPositiveRemoves(cart: seq<CartItem>, productId: int, size: Option<string>, quantity: int)
    requires quantity <= 0
    ensures UpdateQuantity(cart, productId, size, quantity) == RemoveFromCart(cart, productId, size)
  {
  }

  /** Updating a line the cart does not have leaves the cart as it was. */
  lemma UpdateAbsentLine(cart: seq<CartItem>, productId: int, size: Option<string>, quantity: int)
    requires !HasLine(cart, (productId, NormalSize(size)))
    ensures UpdateQuantity(cart, productId, size, quantity) == cart
  {
    if quantity > 0 {
      var r := UpdateQuantity(cart, productId, size, quantity);
      assert forall i :: 0 <= i < |cart| ==> r[i] == cart[i];
    }
  }

  /** A positive update sets the count contribution of the line to exactly the new quantity. */
  lemma UpdateAggregates(cart: seq<CartItem>, productId: int, size: Option<string>, quantity: int, j: int)
    requires UniqueLines(cart) && quantity > 0
    requires 0 <= j < |cart| && LineOf(cart[j]) == (productId, NormalSize(size))
    ensures var r := UpdateQuantity(cart, productId, size, quantity);
      && r[j] == cart[j].(quantity := quantity)
      && CartCount(r) == CartCount(cart) - cart[j].quantity + quantity
      && CartTotal(r) == CartTotal(cart) + cart[j].product.price * (quantity - cart[j].quantity)
  {
    var r := UpdateQuantity(cart, productId, size, quantity);
    UpdateExistingLine(cart, productId, size, quantity, j);
    SumsOfSetQuantity(cart, r, j, quantity);
  }

  lemma UpdateExistingLine(cart: seq<CartItem>, productId: int, size: Option<string>, quantity: int, j: int)
    requires UniqueLines(cart) && quantity > 0
    requires 0 <= j < |cart| && LineOf(cart[j]) == (productId, NormalSize(size))
    ensures var r := UpdateQuantity(cart, productId, size, quantity);
      && |r| == |cart|
      && r[j] == cart[j].(quantity := quantity)
      && forall i :: 0 <= i < |cart| && i != j ==> r[i] == cart[i]
  {
    var key := CartKeyOf(productId, size);
    AllItemKeysMatch(productId, size);
    assert ItemKey(cart[j]) == key;
    var r := SetQuantity(cart, key, quantity);
    assert UpdateQuantity(cart, productId, size, quantity) == r;
    forall i | 0 <= i < |cart| && i != j
      ensures r[i] == cart[i]
    {
      assert LineOf(cart[i]) != LineOf(cart[j]);
    }
  }

  /** An emptied cart holds no pieces and costs nothing. */
  lemma ClearAggregates()
    ensures CartCount(ClearCart()) == 0 && CartTotal(ClearCart()) == 0 && Valid(ClearCart())
  {
  }

  /** Adding keeps every line unique and every quantity positive. */
  lemma AddPreservesValid(cart: seq<CartItem>, product: Product, size: Option<string>)
    requires Valid(cart)
    ensures Valid(AddToCart(cart, product, size))
  {
    var r := AddToCart(cart, product, size);
    var line := (product.id, NormalSize(size));
    assert forall i :: 0 <= i < |cart| ==> LineOf(r[i]) == LineOf(cart[i]) && r[i].quantity >= cart[i].quantity;
    if !HasLine(cart, line) {
      assert LineOf(r[|cart|]) == line;
      forall i, j | 0 <= i < j < |r|
        ensures LineOf(r[i]) != LineOf(r[j])
      {
        if j == |cart| {
          assert LineOf(cart[i]) != line;
        }
      }
    }
  }

  /** Removing keeps every line unique and every quantity positive. */
  lemma RemovePreservesValid(cart: seq<CartItem>, productId: int, size: Option<string>)
    requires Valid(cart)
    ensures Valid(RemoveFromCart(cart, productId, size))
  {
    var r := RemoveFromCart(cart, productId, size);
    forall i, j | 0 <= i < j < |r|
      ensures LineOf(r[i]) != LineOf(r[j])
    {
      SubsequencePairs(r, cart, i, j);
    }
    forall i | 0 <= i < |r|
      ensures r[i].quantity >= 1
    {
      assert r[i] in cart;
    }
  }

  /** Updating keeps every line unique and every quantity positive. */
  lemma UpdatePreservesValid(cart: seq<CartItem>, productId: int, size: Option<string>, quantity: int)
    requires Valid(cart)
    ensures Valid(UpdateQuantity(cart, productId, size, quantity))
  {
    if quantity <= 0 {
      RemovePreservesValid(cart, productId, size);
    } else {
      var r := UpdateQuantity(cart, productId, size, quantity);
      assert forall i :: 0 <= i < |cart| ==> LineOf(r[i]) == LineOf(cart[i]);
    }
  }

  /** A snapshot that parses back to the cart it was written from restores that cart. */
  lemma RestoreAfterSave(cart: seq<CartItem>, serialize: seq<CartItem> -> string,
                         parse: string -> Option<seq<CartItem>>, initial: seq<CartItem>)
    requires serialize(cart) != "" && parse(serialize(cart)) == Some(cart)
    ensures RestoreCart(Some(serialize(cart)), parse, initial) == cart
  {
  }

  /**
   * A shopping session: a 999 item in size M added twice, brought back to
   * one piece, then removed.
   */
  lemma SessionScenario(p: Product)
    requires p.id == 1 && p.price == 999
    ensures var c1 := AddToCart(AddToCart([], p, Some("M")), p, Some("M"));
      && |c1| == 1 && c1[0].quantity == 2 && CartTotal(c1) == 1998
      && var c2 := UpdateQuantity(c1, 1, Some("M"), 1);
      && CartTotal(c2) == 999
      && var c3 := RemoveFromCart(c2, 1, Some("M"));
      && |c3| == 0 && CartCount(c3) == 0 && CartTotal(c3) == 0
  {
    AddTwiceMerges(p, Some("M"));
    var c1 := AddToCart(AddToCart([], p, Some("M")), p, Some("M"));
    assert LineOf(c1[0]) == (1, "M");
    UpdateAggregates(c1, 1, Some("M"), 1, 0);
    var c2 := UpdateQuantity(c1, 1, Some("M"), 1);
    RemoveExistingLine(c2, 1, Some("M"), 0);
  }
}
