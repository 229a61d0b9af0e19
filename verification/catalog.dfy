/**
 * The entities the store and cart apps share, and the product queries
 * (QuerySet filters and slices) that the views and the recommender are
 * built from. A sequence of products stands for a table read in the
 * database's native row order.
 */
module Catalog {

  type UserId = nat
  type ProductId = nat
  type CategoryId = nat

  datatype Option<+T> = None | Some(value: T)

  /** A catalog row: a product and the category it belongs to. */
  datatype Product = Product(id: ProductId, category: CategoryId)

  /** A row of the saved-items table: `user` saved (favourited) `product`. */
  datatype SavedItem = SavedItem(user: UserId, product: ProductId)

  /**
   * A row of the cart-item table: the user who owns the cart it sits in
   * (`cart__user`), the product and the quantity.
   */
  datatype CartItem = CartItem(owner: UserId, product: ProductId, quantity: int)

  /**
   * Who makes the request: no user object at all, the framework's
   * anonymous (unauthenticated) user, or a signed-in user.
   */
  datatype Requester = NoUser | Anonymous | SignedIn(id: UserId)

  /**
   * The tables the recommender reads, each in native row order; `carts`
   * is a snapshot of the rows of the cart-item table that the cart views
   * update in place (`CartViews.CartTable.items`), taken in row-id order.
   */
  datatype Store = Store(catalog: seq<Product>, saved: seq<SavedItem>, carts: seq<CartItem>)

  function Min(a: int, b: int): int
  {
    if a <= b then a else b
  }

  /** No two rows carry the same product id (the primary key). */
  predicate UniqueIds(ps: seq<Product>)
  {
    forall i, j :: 0 <= i < j < |ps| ==> ps[i].id != ps[j].id
  }

  /** The ids of a list of products (`[p.id for p in ps]` as a set). */
  function Ids(ps: seq<Product>): set<ProductId>
  {
    set p | p in ps :: p.id
  }

  /**
   * `a` can be obtained from `b` by deleting rows: the rows of `a` appear
   * in `b`, in the same order.
   */
  predicate SubsequenceOf(a: seq<Product>, b: seq<Product>)
    decreases |b|
  {
    if a == [] then true
    else if b == [] then false
    else (a[0] == b[0] && SubsequenceOf(a[1..], b[1..])) || SubsequenceOf(a, b[1..])
  }

  /** The slice `ps[:n]` for a non-negative `n`. */
  function Take(ps: seq<Product>, n: nat): (r: seq<Product>)
    ensures |r| == Min(n, |ps|) && r == ps[..|r|]
    ensures forall p :: p in r ==> p in ps
    ensures UniqueIds(ps) ==> UniqueIds(r)
  {
    if n < |ps| then ps[..n] else ps
  }

  /** `ps.exclude(id__in=ids)`: the rows whose id is not in `ids`, in row order. */
  function Excluding(ps: seq<Product>, ids: set<ProductId>): (r: seq<Product>)
    ensures forall p :: p in r <==> p in ps && p.id !in ids
    ensures |r| <= |ps|
    ensures SubsequenceOf(r, ps)
    ensures UniqueIds(ps) ==> UniqueIds(r)
  {
    if ps == [] then []
    else
      var r := if ps[0].id in ids then Excluding(ps[1..], ids) else [ps[0]] + Excluding(ps[1..], ids);
      assert UniqueIds(ps) ==> UniqueIds(r) by {
        if UniqueIds(ps) {
          SubsequenceUniqueIds(r, ps);
        }
      }
      r
  }

  /** `ps.filter(id__in=ids)`: the rows whose id is in `ids`, in row order. */
  function Among(ps: seq<Product>, ids: set<ProductId>): (r: seq<Product>)
    ensures forall p :: p in r <==> p in ps && p.id in ids
    ensures |r| <= |ps|
    ensures SubsequenceOf(r, ps)
    ensures UniqueIds(ps) ==> UniqueIds(r)
  {
    if ps == [] then []
    else
      var r := if ps[0].id in ids then [ps[0]] + Among(ps[1..], ids) else Among(ps[1..], ids);
      assert UniqueIds(ps) ==> UniqueIds(r) by {
        if UniqueIds(ps) {
          SubsequenceUniqueIds(r, ps);
        }
      }
      r
  }

  /** `ps.filter(category=c)`: the rows of category `c`, in row order. */
  function InCategory(ps: seq<Product>, c: CategoryId): (r: seq<Product>)
    ensures forall p :: p in r <==> p in ps && p.category == c
    ensures |r| <= |ps|
    ensures SubsequenceOf(r, ps)
    ensures UniqueIds(ps) ==> UniqueIds(r)
  {
    if ps == [] then []
    else
      var r := if ps[0].category == c then [ps[0]] + InCategory(ps[1..], c) else InCategory(ps[1..], c);
      assert UniqueIds(ps) ==> UniqueIds(r) by {
        if UniqueIds(ps) {
          SubsequenceUniqueIds(r, ps);
        }
      }
      r
  }

  /** Excluding the key of a row that is present drops exactly that one row. */
  lemma {:induction false} ExcludingPresentId(ps: seq<Product>, p: Product)
    requires UniqueIds(ps) && p in ps
    ensures |Excluding(ps, {p.id})| == |ps| - 1
  {
    if ps[0] == p {
      assert forall q :: q in ps[1..] ==> q.id != p.id;
      ExcludingAbsentIds(ps[1..], {p.id});
    } else {
      ExcludingPresentId(ps[1..], p);
    }
  }

  /** Excluding keys no row carries keeps every row. */
  lemma {:induction false} ExcludingAbsentIds(ps: seq<Product>, ids: set<ProductId>)
    requires forall q :: q in ps ==> q.id !in ids
    ensures Excluding(ps, ids) == ps
  {
    if ps != [] {
      ExcludingAbsentIds(ps[1..], ids);
      assert [ps[0]] + ps[1..] == ps;
    }
  }

  /** A prefix of a subsequence of `b` is a subsequence of `b`. */
  lemma {:induction false} SubsequencePrefix(a: seq<Product>, b: seq<Product>, k: nat)
    requires SubsequenceOf(a, b) && k <= |a|
    ensures SubsequenceOf(a[..k], b)
    decreases |b|
  {
    if k > 0 {
      assert a != [] && b != [];
      if a[0] == b[0] && SubsequenceOf(a[1..], b[1..]) {
        SubsequencePrefix(a[1..], b[1..], k - 1);
        assert a[..k][1..] == a[1..][..k - 1];
      } else {
        SubsequencePrefix(a, b[1..], k);
      }
    }
  }

  /** The rows of a subsequence are rows of the sequence. */
  lemma {:induction false} SubsequenceMembers(a: seq<Product>, b: seq<Product>)
    requires SubsequenceOf(a, b)
    ensures forall x :: x in a ==> x in b
    decreases |b|
  {
    if a != [] {
      if a[0] == b[0] && SubsequenceOf(a[1..], b[1..]) {
        SubsequenceMembers(a[1..], b[1..]);
        assert a == [a[0]] + a[1..];
      } else {
        SubsequenceMembers(a, b[1..]);
      }
    }
  }

  /** Deleting rows from a catalog with unique ids leaves unique ids. */
  lemma {:induction false} SubsequenceUniqueIds(a: seq<Product>, b: seq<Product>)
    requires SubsequenceOf(a, b) && UniqueIds(b)
    ensures UniqueIds(a)
    decreases |b|
  {
    if a != [] {
      var tail := b[1..];
      assert UniqueIds(tail) by {
        forall i, j | 0 <= i < j < |tail| ensures tail[i].id != tail[j].id {
          assert tail[i] == b[i + 1] && tail[j] == b[j + 1];
        }
      }
      if a[0] == b[0] && SubsequenceOf(a[1..], tail) {
        SubsequenceUniqueIds(a[1..], tail);
        SubsequenceMembers(a[1..], tail);
        forall i, j | 0 <= i < j < |a| ensures a[i].id != a[j].id {
          assert a[j] == a[1..][j - 1];
          if i == 0 {
            assert a[j] in a[1..];
            assert a[j] in tail;
            var m :| 0 <= m < |tail| && tail[m] == a[j];
            assert b[m + 1] == a[j];
          } else {
            assert a[i] == a[1..][i - 1];
          }
        }
      } else {
        SubsequenceUniqueIds(a, tail);
      }
    }
  }

  /** Dropping the first row keeps ids unique. */
  lemma UniqueIdsTail(b: seq<Product>)
    requires UniqueIds(b) && b != []
    ensures UniqueIds(b[1..])
  {
    var tail := b[1..];
    forall m, n | 0 <= m < n < |tail| ensures tail[m].id != tail[n].id {
      assert tail[m] == b[m + 1] && tail[n] == b[n + 1];
    }
  }

  /** When a subsequence of a catalog with unique ids holds the catalog's first row, that row comes first. */
  lemma FirstRowLeads(a: seq<Product>, b: seq<Product>)
    requires SubsequenceOf(a, b) && UniqueIds(b) && a != [] && b != [] && b[0] in a
    ensures a[0] == b[0]
  {
    if a[0] != b[0] {
      SubsequenceMembers(a, b[1..]);
      assert false;
    }
  }

  /** A member of a non-empty sequence other than its head is a member of its tail. */
  lemma MemberOfTail(x: Product, s: seq<Product>)
    requires x in s && x != s[0]
    ensures x in s[1..]
  {
    assert s == [s[0]] + s[1..];
  }

  /**
   * A prefix of a subsequence of a catalog with unique ids keeps every
   * earlier row: when a later catalog row made it into the first `k` rows
   * of `a`, so did each earlier catalog row that `a` holds at all.
   */
  lemma {:induction false} PrefixKeepsEarlierRows(a: seq<Product>, b: seq<Product>, k: nat, i: nat, j: nat)
    requires SubsequenceOf(a, b) && UniqueIds(b) && k <= |a|
    requires i < j < |b| && b[i] in a && b[j] in a[..k]
    ensures b[i] in a[..k]
    decreases |b|
  {
    assert k >= 1 && a != [] && b != [];
    UniqueIdsTail(b);
    var tail := b[1..];
    assert tail[j - 1] == b[j];
    if i == 0 {
      FirstRowLeads(a, b);
      assert a[..k][0] == b[0];
    } else if a[0] == b[0] && SubsequenceOf(a[1..], tail) {
      var rest := a[1..];
      assert tail[i - 1] == b[i];
      assert a[..k] == [a[0]] + rest[..k - 1];
      assert b[i] != a[0] && b[j] != a[0] by {
        assert b[i].id != b[0].id && b[j].id != b[0].id;
      }
      MemberOfTail(b[i], a);
      MemberOfTail(b[j], a[..k]);
      PrefixKeepsEarlierRows(rest, tail, k - 1, i - 1, j - 1);
    } else {
      assert SubsequenceOf(a, tail) && tail[i - 1] == b[i];
      PrefixKeepsEarlierRows(a, tail, k, i - 1, j - 1);
    }
  }

  /** The same for the slice `a[:k]`. */
  lemma TakeKeepsEarlierRows(a: seq<Product>, b: seq<Product>, k: nat, i: nat, j: nat)
    requires SubsequenceOf(a, b) && UniqueIds(b)
    requires i < j < |b| && b[i] in a && b[j] in Take(a, k)
    ensures b[i] in Take(a, k)
  {
    PrefixKeepsEarlierRows(a, b, |Take(a, k)|, i, j);
  }

  /** Deleting rows twice is deleting rows once. */
  lemma {:induction false} SubsequenceTransitive(a: seq<Product>, b: seq<Product>, c: seq<Product>)
    requires SubsequenceOf(a, b) && SubsequenceOf(b, c)
    ensures SubsequenceOf(a, c)
    decreases |c|
  {
    if a != [] {
      assert b != [] && c != [];
      if b[0] == c[0] && SubsequenceOf(b[1..], c[1..]) {
        if a[0] == b[0] && SubsequenceOf(a[1..], b[1..]) {
          SubsequenceTransitive(a[1..], b[1..], c[1..]);
        } else {
          SubsequenceTransitive(a, b[1..], c[1..]);
        }
      } else {
        SubsequenceTransitive(a, b, c[1..]);
      }
    }
  }

  /** Rows with distinct ids are distinct rows: as many rows as elements. */
  lemma {:induction false} UniqueIdsCardinality(ps: seq<Product>)
    requires UniqueIds(ps)
    ensures |set p | p in ps| == |ps|
  {
    if ps != [] {
      var rest := ps[1..];
      UniqueIdsCardinality(rest);
      assert ps[0] !in rest;
      assert (set p | p in ps) == (set p | p in rest) + {ps[0]} by {
        assert ps == [ps[0]] + rest;
      }
    }
  }

  /** Concatenating two id-disjoint lists without repeated ids repeats no id. */
  lemma UniqueIdsConcat(a: seq<Product>, b: seq<Product>)
    requires UniqueIds(a) && UniqueIds(b)
    requires forall p :: p in b ==> p.id !in Ids(a)
    ensures UniqueIds(a + b)
  {
    forall i, j | 0 <= i < j < |a + b| ensures (a + b)[i].id != (a + b)[j].id {
      if i < |a| && j >= |a| {
        assert (a + b)[j] == b[j - |a|];
        assert (a + b)[i] in a;
      }
    }
  }
}
