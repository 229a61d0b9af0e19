/**
 * The cart app's request handlers as in-place updates of the cart tables:
 * one cart per user, and cart items (a product and a quantity in some
 * user's cart) keyed by their row id.
 */
module CartViews {
  import opened Catalog

  type ItemId = nat

  datatype HttpMethod = Get | Post

  /** The rows of `items` that sit in `user`'s cart. */
  ghost function ItemsOf(items: map<ItemId, CartItem>, user: UserId): set<ItemId>
  {
    set id | id in items && items[id].owner == user
  }

  /** `items` with every row of `user`'s cart deleted (`cart.items.all().delete()`). */
  function WithoutCartOf(items: map<ItemId, CartItem>, user: UserId): (r: map<ItemId, CartItem>)
    ensures forall id :: id in r <==> id in items && items[id].owner != user
    ensures forall id :: id in r ==> r[id] == items[id]
  {
    map id | id in items && items[id].owner != user :: items[id]
  }

  class CartTable {
    /** The users who have a cart. */
    var carts: set<UserId>
    /** The cart-item rows by id. */
    var items: map<ItemId, CartItem>
    /** The id the next new row gets. */
    var nextId: ItemId
    /** The quantity a newly created row receives (the cart-item model's field default, left unconstrained). */
    const defaultQuantity: int

    /**
     * Every row sits in an existing cart and has an id below `nextId`;
     * a cart holds at most one row per product.
     */
    ghost predicate Valid()
      reads this
    {
      (forall id :: id in items ==> id < nextId && items[id].owner in carts) &&
      (forall a, b ::
         (a in items && b in items && items[a].owner == items[b].owner && items[a].product == items[b].product) ==> a == b)
    }

    constructor (defaultQuantity: int)
      ensures Valid()
      ensures carts == {} && items == map[] && this.defaultQuantity == defaultQuantity
    {
      carts := {};
      items := map[];
      nextId := 0;
      this.defaultQuantity := defaultQuantity;
    }

    /**
     * `add_to_cart`: an unknown product is a 404 and changes nothing;
     * otherwise creates the user's cart if needed, then creates the
     * (cart, product) row, or adds exactly 1 to its quantity if it exists.
     */
    method AddToCart(products: set<ProductId>, user: UserId, product: ProductId)
      returns (found: bool, item: ItemId, created: bool)
      requires Valid()
      modifies this
      ensures Valid()
      ensures found <==> product in products
      ensures !found ==> carts == old(carts) && items == old(items) && nextId == old(nextId) && !created
      ensures found ==> carts == old(carts) + {user}
      ensures found ==>
                (created <==> !exists id :: id in old(items) && old(items)[id].owner == user && old(items)[id].product == product)
      ensures found && created ==> item !in old(items) &&
                                   items == old(items)[item := CartItem(user, product, defaultQuantity)]
      ensures found && !created ==> item in old(items) && old(items)[item].owner == user && old(items)[item].product == product &&
                                    items == old(items)[item := old(items)[item].(quantity := old(items)[item].quantity + 1)]
    {
      found, item, created := product in products, 0, false;
      if !found {
        return;
      }
      carts := carts + {user};
      if id :| id in items && items[id].owner == user && items[id].product == product {
        item := id;
        items := items[id := items[id].(quantity := items[id].quantity + 1)];
      } else {
        item, created := nextId, true;
        items := items[item := CartItem(user, product, defaultQuantity)];
        nextId := nextId + 1;
      }
    }

    /**
     * `remove_from_cart`: deletes the row only when it sits in the
     * requesting user's cart; otherwise nothing changes (a 404).
     */
    method RemoveFromCart(user: UserId, item: ItemId) returns (found: bool)
      requires Valid()
      modifies this
      ensures Valid()
      ensures found <==> item in old(items) && old(items)[item].owner == user
      ensures items == if found then old(items) - {item} else old(items)
      ensures carts == old(carts) && nextId == old(nextId)
    {
      found := item in items && items[item].owner == user;
      if found {
        items := items - {item};
      }
    }

    /**
     * `update_cart`: for a row of the user's own cart, a POST sets its
     * quantity to the posted value (1 when the field is missing) if that is
     * positive and deletes the row otherwise; any other request changes
     * nothing.
     */
    method UpdateCart(user: UserId, item: ItemId, request: HttpMethod, posted: Option<int>) returns (found: bool)
      requires Valid()
      modifies this
      ensures Valid()
      ensures found <==> item in old(items) && old(items)[item].owner == user
      ensures var quantity := if posted.Some? then posted.value else 1;
              items == if !found || request != Post then old(items)
                       else if quantity > 0 then old(items)[item := old(items)[item].(quantity := quantity)]
                       else old(items) - {item}
      ensures carts == old(carts) && nextId == old(nextId)
    {
      found := item in items && items[item].owner == user;
      if found && request == Post {
        var quantity := if posted.Some? then posted.value else 1;
        if quantity > 0 {
          items := items[item := items[item].(quantity := quantity)];
        } else {
          items := items - {item};
        }
      }
    }

    /** Deletes every row of `user`'s cart and no other row. */
    method ClearCart(user: UserId)
      requires Valid()
      modifies this
      ensures Valid()
      ensures items == WithoutCartOf(old(items), user)
      ensures carts == old(carts) && nextId == old(nextId)
    {
      items := WithoutCartOf(items, user);
    }

    /**
     * `checkout` of the cart views: without a cart, a 404 and no change;
     * a POST empties the user's cart; any other request changes nothing.
     */
    method Checkout(user: UserId, request: HttpMethod) returns (found: bool)
      requires Valid()
      modifies this
      ensures Valid()
      ensures found <==> user in old(carts)
      ensures items == if found && request == Post then WithoutCartOf(old(items), user) else old(items)
      ensures found && request == Post ==> ItemsOf(items, user) == {}
      ensures carts == old(carts) && nextId == old(nextId)
    {
      found := user in carts;
      if found && request == Post {
        ClearCart(user);
      }
    }
  }
}
