/**
 * Orders: the total of an order line and of an order, and the checkout
 * that turns the user's cart into an order. Prices are decimals with two
 * places, so they are modelled exactly as whole cents.
 */
module CartModels {
  import opened Catalog
  import opened CartViews

  datatype Status = Pending | Processing | Shipped | Delivered | Cancelled

  datatype PaymentMethod = CashOnDelivery

  /** What the order form collects. */
  datatype OrderDetails = OrderDetails(firstName: string, lastName: string, email: string,
                                       address: string, phone: string, payment: PaymentMethod)

  /** An order line: the product, its price in cents when ordered, and the quantity. */
  datatype OrderLine = OrderLine(product: ProductId, price: int, quantity: int)

  datatype Order = Order(user: UserId, details: OrderDetails, status: Status, lines: seq<OrderLine>)

  /**
   * An order line's total: its stored price times its quantity. A line
   * of no items totals nothing, a single item totals its price, and with a
   * non-negative price each further item adds at least nothing.
   */
  function LineTotal(line: OrderLine): (total: int)
    ensures line.quantity == 0 ==> total == 0
    ensures line.quantity == 1 ==> total == line.price
    ensures line.price >= 0 && line.quantity >= 1 ==> total >= line.price
  {
    line.price * line.quantity
  }

  /** An order's total: the sum of its line totals. */
  function OrderTotal(lines: seq<OrderLine>): (total: int)
    ensures lines == [] ==> total == 0
    ensures (forall l :: l in lines ==> l.price >= 0 && l.quantity >= 0) ==> total >= 0
  {
    if lines == [] then 0 else LineTotal(lines[0]) + OrderTotal(lines[1..])
  }

  /** The total of two runs of lines is the sum of their totals. */
  lemma {:induction false} OrderTotalAppend(a: seq<OrderLine>, b: seq<OrderLine>)
    ensures OrderTotal(a + b) == OrderTotal(a) + OrderTotal(b)
  {
    if a != [] {
      OrderTotalAppend(a[1..], b);
      assert a + b != [] && (a + b)[0] == a[0];
      assert (a + b)[1..] == a[1..] + b;
    } else {
      assert a + b == b;
    }
  }

  /** Taking the element at position `k` out of a sequence takes one copy of it out of its multiset. */
  lemma MultisetDrop<T>(s: seq<T>, k: nat)
    requires k < |s|
    ensures multiset(s) == multiset(s[..k] + s[k + 1..]) + multiset{s[k]}
  {
    assert s == s[..k] + [s[k]] + s[k + 1..];
  }

  /** Multisets that agree after adding the same element agree before. */
  lemma MultisetCancel<T>(a: multiset<T>, b: multiset<T>, x: T)
    requires a + multiset{x} == b + multiset{x}
    ensures a == b
  {
    forall y ensures a[y] == b[y] {
      assert (a + multiset{x})[y] == (b + multiset{x})[y];
    }
  }

  /** Taking one matching element out of two sequences with equal multisets leaves equal multisets. */
  lemma MultisetDropMatching<T>(s1: seq<T>, k1: nat, s2: seq<T>, k2: nat)
    requires k1 < |s1| && k2 < |s2| && s1[k1] == s2[k2]
    requires multiset(s1) == multiset(s2)
    ensures multiset(s1[..k1] + s1[k1 + 1..]) == multiset(s2[..k2] + s2[k2 + 1..])
  {
    MultisetDrop(s1, k1);
    MultisetDrop(s2, k2);
    MultisetCancel(multiset(s1[..k1] + s1[k1 + 1..]), multiset(s2[..k2] + s2[k2 + 1..]), s1[k1]);
  }

  /** Taking one line out of an order takes its line total out of the order's total. */
  lemma OrderTotalRemove(lines: seq<OrderLine>, k: nat)
    requires k < |lines|
    ensures OrderTotal(lines) == LineTotal(lines[k]) + OrderTotal(lines[..k] + lines[k + 1..])
  {
    var tail := lines[k..];
    assert lines == lines[..k] + tail;
    assert tail != [] && tail[0] == lines[k] && tail[1..] == lines[k + 1..];
    OrderTotalAppend(lines[..k], tail);
    OrderTotalAppend(lines[..k], lines[k + 1..]);
  }

  /** The total does not depend on the order of the lines. */
  lemma {:induction false} OrderTotalReorder(a: seq<OrderLine>, b: seq<OrderLine>)
    requires multiset(a) == multiset(b)
    ensures OrderTotal(a) == OrderTotal(b)
    decreases |a|
  {
    if a != [] {
      var x := a[0];
      assert x in multiset(a);
      var k :| 0 <= k < |b| && b[k] == x;
      var rest := b[..k] + b[k + 1..];
      MultisetDropMatching(a, 0, b, k);
      assert a[..0] + a[1..] == a[1..];
      OrderTotalReorder(a[1..], rest);
      OrderTotalRemove(b, k);
    }
  }

  /** `line` is the order line copied from cart row `item` at the current prices. */
  predicate CopiedFrom(line: OrderLine, item: CartItem, prices: map<ProductId, int>)
  {
    line.product == item.product && item.product in prices &&
    line.price == prices[item.product] && line.quantity == item.quantity
  }

  /** `lines[k]` is copied from row `ids[k]`, for every `k`. */
  ghost predicate CopiedInOrder(lines: seq<OrderLine>, ids: seq<ItemId>, items: map<ItemId, CartItem>,
                                prices: map<ProductId, int>)
  {
    |lines| == |ids| &&
    forall k :: 0 <= k < |ids| ==> ids[k] in items && CopiedFrom(lines[k], items[ids[k]], prices)
  }

  /**
   * `lines` holds one line per row of `user`'s cart in `items`: it is
   * copied from a list of row ids that names every row of that cart
   * exactly once, in some order.
   */
  ghost predicate CopiesCart(lines: seq<OrderLine>, items: map<ItemId, CartItem>, user: UserId,
                             prices: map<ProductId, int>)
  {
    exists ids: seq<ItemId> :: multiset(ids) == multiset(ItemsOf(items, user)) && CopiedInOrder(lines, ids, items, prices)
  }

  /** Dropping the same position from the rows and the lines keeps them aligned. */
  lemma DropCopied(l: seq<OrderLine>, e: seq<ItemId>, k: nat, items: map<ItemId, CartItem>,
                   prices: map<ProductId, int>)
    requires CopiedInOrder(l, e, items, prices) && k < |e|
    ensures CopiedInOrder(l[..k] + l[k + 1..], e[..k] + e[k + 1..], items, prices)
  {
    var e' := e[..k] + e[k + 1..];
    var l' := l[..k] + l[k + 1..];
    forall i | 0 <= i < |e'| ensures e'[i] in items && CopiedFrom(l'[i], items[e'[i]], prices) {
      var i0 := if i < k then i else i + 1;
      assert e'[i] == e[i0] && l'[i] == l[i0];
    }
  }

  /**
   * The row copied first into `l1` is copied into `l2` at some position
   * `k`, as the same line; dropping it from both leaves two copies of the
   * same remaining rows.
   */
  lemma MatchFirstRow(l1: seq<OrderLine>, e1: seq<ItemId>, l2: seq<OrderLine>, e2: seq<ItemId>,
                      items: map<ItemId, CartItem>, prices: map<ProductId, int>)
    returns (k: nat)
    requires multiset(e1) == multiset(e2) && e1 != []
    requires CopiedInOrder(l1, e1, items, prices) && CopiedInOrder(l2, e2, items, prices)
    ensures k < |e2| && l2[k] == l1[0]
    ensures multiset(e1[1..]) == multiset(e2[..k] + e2[k + 1..])
    ensures CopiedInOrder(l1[1..], e1[1..], items, prices)
    ensures CopiedInOrder(l2[..k] + l2[k + 1..], e2[..k] + e2[k + 1..], items, prices)
  {
    var x := e1[0];
    assert x in multiset(e1);
    k :| 0 <= k < |e2| && e2[k] == x;
    assert CopiedFrom(l1[0], items[x], prices) && CopiedFrom(l2[k], items[x], prices);
    MultisetDropMatching(e1, 0, e2, k);
    DropCopied(l1, e1, 0, items, prices);
    DropCopied(l2, e2, k, items, prices);
    assert e1[..0] + e1[1..] == e1[1..] && l1[..0] + l1[1..] == l1[1..];
  }

  /** Two copies of the same rows, taken in any two orders, hold the same lines. */
  lemma {:induction false} CopiesArePermutations(l1: seq<OrderLine>, e1: seq<ItemId>, l2: seq<OrderLine>,
                                                 e2: seq<ItemId>, items: map<ItemId, CartItem>,
                                                 prices: map<ProductId, int>)
    requires multiset(e1) == multiset(e2)
    requires CopiedInOrder(l1, e1, items, prices) && CopiedInOrder(l2, e2, items, prices)
    ensures multiset(l1) == multiset(l2)
    decreases |e1|
  {
    if e1 == [] {
      assert |multiset(e2)| == 0;
    } else {
      var k := MatchFirstRow(l1, e1, l2, e2, items, prices);
      CopiesArePermutations(l1[1..], e1[1..], l2[..k] + l2[k + 1..], e2[..k] + e2[k + 1..], items, prices);
      MultisetDrop(l1, 0);
      MultisetDrop(l2, k);
      assert l1[..0] + l1[1..] == l1[1..];
    }
  }

  /**
   * Whatever order checkout reads the cart rows in, the order it places
   * has the same lines, up to their order, and the same total.
   */
  lemma CheckoutTotalDeterministic(l1: seq<OrderLine>, l2: seq<OrderLine>, items: map<ItemId, CartItem>,
                                   user: UserId, prices: map<ProductId, int>)
    requires CopiesCart(l1, items, user, prices) && CopiesCart(l2, items, user, prices)
    ensures multiset(l1) == multiset(l2)
    ensures OrderTotal(l1) == OrderTotal(l2)
  {
    var e1: seq<ItemId> :| multiset(e1) == multiset(ItemsOf(items, user)) && CopiedInOrder(l1, e1, items, prices);
    var e2: seq<ItemId> :| multiset(e2) == multiset(ItemsOf(items, user)) && CopiedInOrder(l2, e2, items, prices);
    CopiesArePermutations(l1, e1, l2, e2, items, prices);
    OrderTotalReorder(l1, l2);
  }

  /** The orders table. */
  class OrderBook {
    var orders: seq<Order>

    constructor ()
      ensures orders == []
    {
      orders := [];
    }
  }

  datatype CheckoutOutcome = CartNotFound | CartEmpty | OrderPlaced | FormShown

  /**
   * The loop over the cart's rows: one order line per row of `user`'s
   * cart, at the product's current price and the row's quantity, the rows
   * taken in whatever order the table yields them.
   */
  method CopyCartLines(items: map<ItemId, CartItem>, user: UserId, prices: map<ProductId, int>)
    returns (lines: seq<OrderLine>)
    requires forall id :: id in items ==> items[id].product in prices
    ensures CopiesCart(lines, items, user, prices)
  {
    var pending := set id | id in items && items[id].owner == user;
    ghost var cartIds := pending;
    lines := [];
    ghost var copied: seq<ItemId> := [];
    while pending != {}
      invariant pending <= cartIds
      invariant multiset(copied) + multiset(pending) == multiset(cartIds)
      invariant CopiedInOrder(lines, copied, items, prices)
      decreases pending
    {
      var id :| id in pending;
      var item := items[id];
      lines := lines + [OrderLine(item.product, prices[item.product], item.quantity)];
      assert multiset(pending) == multiset(pending - {id}) + multiset{id};
      copied := copied + [id];
      pending := pending - {id};
    }
    assert multiset(copied) == multiset(ItemsOf(items, user));
  }

  /**
   * `checkout` of the order views: no cart is a 404; an empty cart
   * redirects without an order; a POST with a valid form (`form` is Some)
   * creates one pending order for the user, copies each cart row into an
   * order line at the product's current price, and empties the cart, all
   * in one step; anything else only shows the form.
   */
  method Checkout(table: CartTable, book: OrderBook, user: UserId, request: HttpMethod,
                  form: Option<OrderDetails>, prices: map<ProductId, int>)
    returns (outcome: CheckoutOutcome)
    requires table.Valid()
    requires forall id :: id in table.items ==> table.items[id].product in prices
    modifies table, book
    ensures table.Valid()
    ensures table.carts == old(table.carts) && table.nextId == old(table.nextId)
    ensures outcome == CartNotFound <==> user !in old(table.carts)
    ensures outcome == CartEmpty <==> user in old(table.carts) && ItemsOf(old(table.items), user) == {}
    ensures outcome == OrderPlaced <==>
              user in old(table.carts) && ItemsOf(old(table.items), user) != {} && request == Post && form.Some?
    ensures outcome != OrderPlaced ==> table.items == old(table.items) && book.orders == old(book.orders)
    ensures outcome == OrderPlaced ==>
              table.items == WithoutCartOf(old(table.items), user) &&
              |book.orders| == |old(book.orders)| + 1 &&
              book.orders[..|old(book.orders)|] == old(book.orders) &&
              var order := book.orders[|old(book.orders)|];
              order.user == user && order.details == form.value && order.status == Pending &&
              CopiesCart(order.lines, old(table.items), user, prices)
  {
    if user !in table.carts {
      return CartNotFound;
    }
    var pending := set id | id in table.items && table.items[id].owner == user;
    if pending == {} {
      return CartEmpty;
    }
    if request != Post || form.None? {
      return FormShown;
    }
    var lines := CopyCartLines(table.items, user, prices);
    book.orders := book.orders + [Order(user, form.value, Pending, lines)];
    table.ClearCart(user);
    outcome := OrderPlaced;
  }
}
