/**
 * The store app's views: the product list with its optional category
 * filter, the product detail page (its recommendations and whether the
 * visitor saved the product), and the save/unsave toggle.
 */
module StoreViews {
  import opened Catalog
  import opened Recommendations

  /** A category row; its slug names it in URLs. */
  datatype Category = Category(id: CategoryId, slug: string)

  /** A page, or the 404 that `get_object_or_404` raises. */
  datatype Response<T> = NotFound | Found(page: T)

  /** No two saved-item rows are the same (user, product) pair. */
  predicate NoDuplicates(records: seq<SavedItem>)
  {
    forall i, j :: 0 <= i < j < |records| ==> records[i] != records[j]
  }

  /** `records` with the row `x` deleted, the other rows in order. */
  function Deleted(records: seq<SavedItem>, x: SavedItem): (r: seq<SavedItem>)
    ensures forall y :: y in r <==> y in records && y != x
    ensures |r| <= |records|
  {
    if records == [] then []
    else if records[0] == x then Deleted(records[1..], x)
    else [records[0]] + Deleted(records[1..], x)
  }

  /**
   * The saved-items table after `get_or_create` of `x`, followed by its
   * deletion when it already existed: `x` is present afterwards exactly
   * when it was absent before, and every other row keeps its presence.
   */
  function Toggled(records: seq<SavedItem>, x: SavedItem): (r: seq<SavedItem>)
    ensures x in r <==> x !in records
    ensures forall y :: y != x ==> (y in r <==> y in records)
  {
    if x in records then Deleted(records, x) else records + [x]
  }

  /** Whether the product page shows the product as saved: only a signed-in user who saved it. */
  predicate IsSaved(records: seq<SavedItem>, requester: Requester, pid: ProductId)
  {
    requester.SignedIn? && SavedItem(requester.id, pid) in records
  }

  /** Deleting a row keeps a table free of duplicate rows. */
  lemma {:induction false} DeletedNoDuplicates(records: seq<SavedItem>, x: SavedItem)
    requires NoDuplicates(records)
    ensures NoDuplicates(Deleted(records, x))
  {
    if records != [] {
      var rest := records[1..];
      assert NoDuplicates(rest) by {
        forall i, j | 0 <= i < j < |rest| ensures rest[i] != rest[j] {
          assert rest[i] == records[i + 1] && rest[j] == records[j + 1];
        }
      }
      DeletedNoDuplicates(rest, x);
      if records[0] != x {
        assert records[0] !in rest;
        var r := [records[0]] + Deleted(rest, x);
        forall i, j | 0 <= i < j < |r| ensures r[i] != r[j] {
          if i == 0 {
            assert r[j] in Deleted(rest, x);
          } else {
            assert r[i] == Deleted(rest, x)[i - 1] && r[j] == Deleted(rest, x)[j - 1];
          }
        }
      }
    }
  }

  /** Deleting a row that was just appended undoes the append. */
  lemma {:induction false} DeletedAppended(records: seq<SavedItem>, x: SavedItem)
    requires x !in records
    ensures Deleted(records + [x], x) == records
  {
    if records == [] {
      assert [] + [x] == [x];
    } else {
      DeletedAppended(records[1..], x);
      assert (records + [x])[1..] == records[1..] + [x];
      assert records == [records[0]] + records[1..];
    }
  }

  /** A toggle keeps the table free of duplicate rows. */
  lemma ToggledNoDuplicates(records: seq<SavedItem>, x: SavedItem)
    requires NoDuplicates(records)
    ensures NoDuplicates(Toggled(records, x))
  {
    if x in records {
      DeletedNoDuplicates(records, x);
    } else {
      var r := records + [x];
      forall i, j | 0 <= i < j < |r| ensures r[i] != r[j] {
        if j == |records| {
          assert r[i] in records;
        }
      }
    }
  }

  /** Toggling twice restores a table that did not hold the row, and the set of rows of one that did. */
  lemma ToggleTwice(records: seq<SavedItem>, x: SavedItem)
    ensures x !in records ==> Toggled(Toggled(records, x), x) == records
    ensures forall y :: y in Toggled(Toggled(records, x), x) <==> y in records
  {
    if x !in records {
      DeletedAppended(records, x);
    }
  }

  /**
   * After a signed-in user toggles a product, the detail page shows the
   * opposite saved state to that user for that product, and the same
   * state to every other visitor and for every other product.
   */
  lemma ToggleFlipsIsSaved(records: seq<SavedItem>, user: UserId, pid: ProductId,
                           requester: Requester, other: ProductId)
    ensures IsSaved(Toggled(records, SavedItem(user, pid)), SignedIn(user), pid) <==>
            !IsSaved(records, SignedIn(user), pid)
    ensures (requester != SignedIn(user) || other != pid) ==>
            (IsSaved(Toggled(records, SavedItem(user, pid)), requester, other) <==>
             IsSaved(records, requester, other))
    ensures !requester.SignedIn? ==> !IsSaved(records, requester, other)
  {
  }

  /** The saved-items table, updated in place. */
  class SavedTable {
    var records: seq<SavedItem>

    ghost predicate Valid()
      reads this
    {
      NoDuplicates(records)
    }

    constructor ()
      ensures Valid() && records == []
    {
      records := [];
    }

    /**
     * `toggle_save_product`: a visitor who is not signed in is sent to
     * the login page, an unknown product is a 404; otherwise the
     * (user, product) row is created if absent and deleted if present.
     */
    method ToggleSaveProduct(catalog: seq<Product>, requester: Requester, pid: ProductId)
      returns (r: Response<bool>, loginRequired: bool)
      requires Valid()
      modifies this
      ensures Valid()
      ensures loginRequired <==> !requester.SignedIn?
      ensures !loginRequired ==> (r.NotFound? <==> forall p :: p in catalog ==> p.id != pid)
      ensures loginRequired || r.NotFound? ==> records == old(records)
      ensures r.Found? ==>
                !loginRequired &&
                records == Toggled(old(records), SavedItem(requester.id, pid)) &&
                (r.page <==> SavedItem(requester.id, pid) !in old(records))
    {
      r, loginRequired := NotFound, !requester.SignedIn?;
      if loginRequired {
        return;
      }
      if !exists p :: p in catalog && p.id == pid {
        return;
      }
      var x := SavedItem(requester.id, pid);
      ToggledNoDuplicates(records, x);
      var created := x !in records;
      if created {
        records := records + [x];
      } else {
        records := Deleted(records, x);
      }
      r := Found(created);
    }
  }

  /** `get_object_or_404(Category, slug=slug)`: the category with that slug, if any. */
  function FindCategory(categories: seq<Category>, slug: string): (r: Option<Category>)
    ensures r.Some? ==> r.value in categories && r.value.slug == slug
    ensures r.None? ==> forall c :: c in categories ==> c.slug != slug
  {
    if categories == [] then None
    else if categories[0].slug == slug then Some(categories[0])
    else FindCategory(categories[1..], slug)
  }

  /** What the product list shows: the category chosen, if any, and its products. */
  datatype Listing = Listing(category: Option<Category>, products: seq<Product>)

  /**
   * `product_list`: without a slug (none, or the empty string) every
   * product; with the slug of a category, exactly that category's
   * products in table order; with an unknown slug, a 404.
   */
  function ProductList(categories: seq<Category>, catalog: seq<Product>, slug: Option<string>): (r: Response<Listing>)
    ensures slug.None? || slug.value == [] ==> r == Found(Listing(None, catalog))
    ensures slug.Some? && slug.value != [] ==>
              (r.NotFound? <==> forall c :: c in categories ==> c.slug != slug.value)
    ensures slug.Some? && slug.value != [] && r.Found? ==>
              var c := r.page.category;
              c.Some? && c.value in categories && c.value.slug == slug.value &&
              SubsequenceOf(r.page.products, catalog) &&
              forall p :: p in r.page.products <==> p in catalog && p.category == c.value.id
  {
    if slug.None? || slug.value == [] then Found(Listing(None, catalog))
    else
      match FindCategory(categories, slug.value)
      case None => NotFound
      case Some(c) => Found(Listing(Some(c), InCategory(catalog, c.id)))
  }

  /** `get_object_or_404(Product, ...)`: the catalog row with that key, if any. */
  function FindProduct(catalog: seq<Product>, pid: ProductId): (r: Option<Product>)
    ensures r.Some? ==> r.value in catalog && r.value.id == pid
    ensures r.None? ==> forall p :: p in catalog ==> p.id != pid
  {
    if catalog == [] then None
    else if catalog[0].id == pid then Some(catalog[0])
    else FindProduct(catalog[1..], pid)
  }

  /** The number of recommendations the detail page asks for. */
  const RecommendationLimit: nat := 5

  /** What the product detail page shows. */
  datatype Detail = Detail(product: Product, recommended: seq<Product>, isSaved: bool)

  /**
   * `product_detail`: a 404 for an unknown product; otherwise the
   * product, up to five distinct other products recommended for it
   * (fewer only when the catalog has fewer other products), and whether
   * the visitor, when signed in, saved it.
   */
  method ProductDetail(st: Store, requester: Requester, pid: ProductId) returns (r: Response<Detail>)
    requires UniqueIds(st.catalog)
    ensures r.NotFound? <==> forall p :: p in st.catalog ==> p.id != pid
    ensures r.Found? ==>
              r.page.product in st.catalog && r.page.product.id == pid &&
              |r.page.recommended| == Min(RecommendationLimit, |st.catalog| - 1) &&
              UniqueIds(r.page.recommended) &&
              (forall p :: p in r.page.recommended ==> p in st.catalog && p.id != pid) &&
              (r.page.isSaved <==> IsSaved(st.saved, requester, pid))
    ensures r.Found? ==> Ranked(st, requester, r.page.product, RecommendationLimit) <= r.page.recommended
  {
    var found := FindProduct(st.catalog, pid);
    if found.None? {
      return NotFound;
    }
    var product := found.value;
    var recommended := GetRecommendedProducts(st, requester, product, RecommendationLimit);
    ExcludingPresentId(st.catalog, product);
    var isSaved := requester.SignedIn? && SavedItem(requester.id, pid) in st.saved;
    r := Found(Detail(product, recommended, isSaved));
  }
}
