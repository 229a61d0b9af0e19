/**
 * The product recommender of the store app: given the requester, an
 * anchor product and a limit, it builds a list of other products in four
 * cascading stages (co-interaction, same category, popularity, random
 * fill), each run only while the list is shorter than the limit.
 *
 * Each query stage is a specification function; GetRecommendedProducts
 * extends the list stage by stage as the source does and is proved to
 * return the first three stages' picks followed by random filler.
 */
module Recommendations {
  import opened Catalog

  /** `Product.objects.exclude(id=anchor.id)`: every product but the anchor. */
  function Others(st: Store, anchor: Product): (r: seq<Product>)
    ensures forall p :: p in r <==> p in st.catalog && p.id != anchor.id
  {
    Excluding(st.catalog, {anchor.id})
  }

  /** `u` saved `pid`, or has `pid` in their cart. */
  predicate Engaged(st: Store, u: UserId, pid: ProductId)
  {
    (exists s :: s in st.saved && s.user == u && s.product == pid) ||
    (exists c :: c in st.carts && c.owner == u && c.product == pid)
  }

  /** The users who saved the anchor or have it in their cart. */
  function InterestedUsers(st: Store, anchorId: ProductId): set<UserId>
  {
    (set s | s in st.saved && s.product == anchorId :: s.user) +
    (set c | c in st.carts && c.product == anchorId :: c.owner)
  }

  /** The products other than the anchor that some user in `users` saved or cart-added. */
  function CoInteracted(st: Store, users: set<UserId>, anchorId: ProductId): set<ProductId>
  {
    (set s | s in st.saved && s.user in users && s.product != anchorId :: s.product) +
    (set c | c in st.carts && c.owner in users && c.product != anchorId :: c.product)
  }

  /** Stage 1: products co-interacted with the anchor, in store order, at most `limit`. */
  function Collaborative(st: Store, requester: Requester, anchor: Product, limit: nat): (r: seq<Product>)
    ensures !requester.SignedIn? ==> r == []
    ensures |r| <= limit
    ensures forall p :: p in r ==> p in st.catalog && p.id != anchor.id
    ensures UniqueIds(st.catalog) ==> UniqueIds(r)
  {
    if !requester.SignedIn? then []
    else
      var users := InterestedUsers(st, anchor.id);
      if users == {} then []
      else
        var ids := CoInteracted(st, users, anchor.id);
        if ids == {} then [] else Take(Among(Others(st, anchor), ids), limit)
  }

  /** Stage 2: the anchor's category, minus what is already chosen, up to the remaining budget. */
  function SameCategory(st: Store, anchor: Product, limit: nat, chosen: seq<Product>): (r: seq<Product>)
    ensures |chosen| + |r| <= limit || r == []
    ensures forall p :: p in r ==> p in st.catalog && p.id != anchor.id && p.id !in Ids(chosen)
    ensures UniqueIds(st.catalog) ==> UniqueIds(r)
  {
    if |chosen| >= limit then []
    else Take(Excluding(InCategory(Others(st, anchor), anchor.category), Ids(chosen)), limit - |chosen|)
  }

  /** How many saved rows reference `pid`. */
  function SaveCount(saved: seq<SavedItem>, pid: ProductId): nat
  {
    if saved == [] then 0
    else SaveCount(saved[..|saved| - 1], pid) + (if saved[|saved| - 1].product == pid then 1 else 0)
  }

  /** How many cart rows reference `pid` (rows, not quantities). */
  function CartCount(carts: seq<CartItem>, pid: ProductId): nat
  {
    if carts == [] then 0
    else CartCount(carts[..|carts| - 1], pid) + (if carts[|carts| - 1].product == pid then 1 else 0)
  }

  /** A product's popularity: its saved-row count plus its cart-row count, over all users. */
  function Score(st: Store, pid: ProductId): nat
  {
    SaveCount(st.saved, pid) + CartCount(st.carts, pid)
  }

  /** The keys of the popularity dictionary: every product some row references. */
  function PopularIds(st: Store): set<ProductId>
  {
    (set s | s in st.saved :: s.product) + (set c | c in st.carts :: c.product)
  }

  /** Stage 3: products with some interaction, in STORE order, up to the remaining budget. */
  function Popular(st: Store, anchor: Product, limit: nat, chosen: seq<Product>): (r: seq<Product>)
    ensures |chosen| + |r| <= limit || r == []
    ensures forall p :: p in r ==> p in st.catalog && p.id != anchor.id && p.id !in Ids(chosen)
    ensures UniqueIds(st.catalog) ==> UniqueIds(r)
  {
    if |chosen| >= limit then []
    else
      var ids := PopularIds(st) - Ids(chosen);
      if ids == {} then [] else Take(Among(Others(st, anchor), ids), limit - |chosen|)
  }

  /**
   * The deterministic part of the result: stages 1, 2 and 3 in that order.
   * Together they stay within the limit, never hold the anchor and repeat
   * no product.
   */
  function Ranked(st: Store, requester: Requester, anchor: Product, limit: nat): (r: seq<Product>)
    ensures |r| <= limit
    ensures forall p :: p in r ==> p in st.catalog && p.id != anchor.id
    ensures UniqueIds(st.catalog) ==> UniqueIds(r)
  {
    var s1 := Collaborative(st, requester, anchor, limit);
    var s2 := s1 + SameCategory(st, anchor, limit, s1);
    var r := s2 + Popular(st, anchor, limit, s2);
    assert UniqueIds(st.catalog) ==> UniqueIds(r) by {
      if UniqueIds(st.catalog) {
        UniqueIdsConcat(s1, SameCategory(st, anchor, limit, s1));
        UniqueIdsConcat(s2, Popular(st, anchor, limit, s2));
      }
    }
    r
  }

  /** The interested users are exactly those who saved or cart-added the anchor. */
  lemma InterestedUsersMeaning(st: Store, anchorId: ProductId, u: UserId)
    ensures u in InterestedUsers(st, anchorId) <==> Engaged(st, u, anchorId)
  {
    if Engaged(st, u, anchorId) {
      if exists s :: s in st.saved && s.user == u && s.product == anchorId {
        var s :| s in st.saved && s.user == u && s.product == anchorId;
        assert u in (set s | s in st.saved && s.product == anchorId :: s.user);
      } else {
        var c :| c in st.carts && c.owner == u && c.product == anchorId;
        assert u in (set c | c in st.carts && c.product == anchorId :: c.owner);
      }
    }
  }

  /** The candidates are exactly the non-anchor products some interested user engaged with. */
  lemma CoInteractedMeaning(st: Store, users: set<UserId>, anchorId: ProductId, pid: ProductId)
    ensures pid in CoInteracted(st, users, anchorId) <==>
            pid != anchorId && exists u :: u in users && Engaged(st, u, pid)
  {
    if pid != anchorId && exists u :: u in users && Engaged(st, u, pid) {
      var u :| u in users && Engaged(st, u, pid);
      if exists s :: s in st.saved && s.user == u && s.product == pid {
        var s :| s in st.saved && s.user == u && s.product == pid;
        assert pid in (set s | s in st.saved && s.user in users && s.product != anchorId :: s.product);
      } else {
        var c :| c in st.carts && c.owner == u && c.product == pid;
        assert pid in (set c | c in st.carts && c.owner in users && c.product != anchorId :: c.product);
      }
    }
  }

  /**
   * Every stage-1 pick was saved or cart-added by some user who also saved
   * or cart-added the anchor; when no user engaged with the anchor the
   * stage picks nothing; and a signed-in requester's stage 1 leaves out
   * no such product unless the limit is reached.
   */
  lemma CollaborativePicks(st: Store, requester: Requester, anchor: Product, limit: nat)
    ensures var r := Collaborative(st, requester, anchor, limit);
            forall p :: p in r ==> exists u :: Engaged(st, u, anchor.id) && Engaged(st, u, p.id)
    ensures (forall u :: !Engaged(st, u, anchor.id)) ==> Collaborative(st, requester, anchor, limit) == []
    ensures var r := Collaborative(st, requester, anchor, limit);
            requester.SignedIn? && |r| < limit ==>
              forall p :: (p in st.catalog && p.id != anchor.id &&
                           exists u :: Engaged(st, u, anchor.id) && Engaged(st, u, p.id)) ==> p in r
    ensures SubsequenceOf(Collaborative(st, requester, anchor, limit), st.catalog)
  {
    var r := Collaborative(st, requester, anchor, limit);
    var users := InterestedUsers(st, anchor.id);
    if r != [] {
      var among := Among(Others(st, anchor), CoInteracted(st, users, anchor.id));
      SubsequenceTransitive(among, Others(st, anchor), st.catalog);
      SubsequencePrefix(among, st.catalog, |r|);
    } else {
      assert SubsequenceOf([], st.catalog);
    }
    forall p | p in r ensures exists u :: Engaged(st, u, anchor.id) && Engaged(st, u, p.id) {
      var ids := CoInteracted(st, users, anchor.id);
      assert p.id in ids;
      CoInteractedMeaning(st, users, anchor.id, p.id);
      var u :| u in users && Engaged(st, u, p.id);
      InterestedUsersMeaning(st, anchor.id, u);
    }
    if requester.SignedIn? && |r| < limit {
      forall p | p in st.catalog && p.id != anchor.id &&
                 exists u :: Engaged(st, u, anchor.id) && Engaged(st, u, p.id)
        ensures p in r
      {
        var u :| Engaged(st, u, anchor.id) && Engaged(st, u, p.id);
        InterestedUsersMeaning(st, anchor.id, u);
        CoInteractedMeaning(st, users, anchor.id, p.id);
      }
    }
  }

  /**
   * Every stage-2 pick has the anchor's category; unless the budget runs
   * out, stage 2 takes every other product of that category not yet chosen;
   * and its picks come in store (catalog) order.
   */
  lemma SameCategoryPicks(st: Store, anchor: Product, limit: nat, chosen: seq<Product>)
    ensures forall p :: p in SameCategory(st, anchor, limit, chosen) ==> p.category == anchor.category
    ensures var r := SameCategory(st, anchor, limit, chosen);
            |chosen| < limit && |chosen| + |r| < limit ==>
              forall p :: (p in st.catalog && p.id != anchor.id && p.category == anchor.category &&
                           p.id !in Ids(chosen)) ==> p in r
    ensures SubsequenceOf(SameCategory(st, anchor, limit, chosen), st.catalog)
  {
    var r := SameCategory(st, anchor, limit, chosen);
    if |chosen| < limit {
      var others := Others(st, anchor);
      var same := InCategory(others, anchor.category);
      var unchosen := Excluding(same, Ids(chosen));
      SubsequenceTransitive(same, others, st.catalog);
      SubsequenceTransitive(unchosen, same, st.catalog);
      SubsequencePrefix(unchosen, st.catalog, |r|);
    } else {
      assert SubsequenceOf([], st.catalog);
    }
  }

  /** Without a signed-in requester, the result comes from stages 2 and 3 alone. */
  lemma AnonymousSkipsCollaboration(st: Store, requester: Requester, anchor: Product, limit: nat)
    requires !requester.SignedIn?
    ensures var s2 := SameCategory(st, anchor, limit, []);
            Ranked(st, requester, anchor, limit) == s2 + Popular(st, anchor, limit, s2)
  {
    var s1 := Collaborative(st, requester, anchor, limit);
    assert s1 == [];
    assert s1 + SameCategory(st, anchor, limit, s1) == SameCategory(st, anchor, limit, []);
  }

  /**
   * When stage 1 picks nothing and the anchor's category holds at least
   * `limit` other products, stages 1 to 3 give the first `limit` of them.
   */
  lemma {:induction false} CategoryFallback(st: Store, requester: Requester, anchor: Product, limit: nat)
    requires Collaborative(st, requester, anchor, limit) == []
    requires |InCategory(Others(st, anchor), anchor.category)| >= limit
    ensures var r := Ranked(st, requester, anchor, limit);
            |r| == limit && forall p :: p in r ==> p.category == anchor.category
    ensures Ranked(st, requester, anchor, limit) == Take(InCategory(Others(st, anchor), anchor.category), limit)
  {
    var same := InCategory(Others(st, anchor), anchor.category);
    var s2 := SameCategory(st, anchor, limit, []);
    assert Ids([]) == {};
    ExcludingAbsentIds(same, {});
    assert s2 == Take(same, limit) by {
      if limit == 0 {
        assert |Take(same, limit)| == 0;
      }
    }
    assert [] + s2 == s2 && |s2| == limit;
    assert Popular(st, anchor, limit, s2) == [];
    assert Ranked(st, requester, anchor, limit) == s2 + [];
  }

  /** A product counts toward popularity exactly when some row references it. */
  lemma {:induction false} SaveCountPositive(saved: seq<SavedItem>, pid: ProductId)
    ensures SaveCount(saved, pid) > 0 <==> exists s :: s in saved && s.product == pid
  {
    if saved != [] {
      var init := saved[..|saved| - 1];
      SaveCountPositive(init, pid);
      assert saved == init + [saved[|saved| - 1]];
    }
  }

  lemma {:induction false} CartCountPositive(carts: seq<CartItem>, pid: ProductId)
    ensures CartCount(carts, pid) > 0 <==> exists c :: c in carts && c.product == pid
  {
    if carts != [] {
      var init := carts[..|carts| - 1];
      CartCountPositive(init, pid);
      assert carts == init + [carts[|carts| - 1]];
    }
  }

  /** The popularity dictionary's keys are exactly the products with a nonzero score. */
  lemma PopularIdsScore(st: Store, pid: ProductId)
    ensures pid in PopularIds(st) <==> Score(st, pid) >= 1
  {
    SaveCountPositive(st.saved, pid);
    CartCountPositive(st.carts, pid);
  }

  /**
   * Every stage-3 pick has popularity at least 1; unless the budget runs
   * out, stage 3 takes every other popular product not yet chosen.
   */
  lemma PopularPicks(st: Store, anchor: Product, limit: nat, chosen: seq<Product>)
    ensures forall p :: p in Popular(st, anchor, limit, chosen) ==> Score(st, p.id) >= 1
    ensures var r := Popular(st, anchor, limit, chosen);
            |chosen| < limit && |chosen| + |r| < limit ==>
              forall p :: (p in st.catalog && p.id != anchor.id && Score(st, p.id) >= 1 &&
                           p.id !in Ids(chosen)) ==> p in r
  {
    var r := Popular(st, anchor, limit, chosen);
    forall p | p in r ensures Score(st, p.id) >= 1 {
      PopularIdsScore(st, p.id);
    }
    if |chosen| < limit && |chosen| + |r| < limit {
      forall p | p in st.catalog && p.id != anchor.id && Score(st, p.id) >= 1 && p.id !in Ids(chosen)
        ensures p in r
      {
        PopularIdsScore(st, p.id);
        assert p.id in PopularIds(st) - Ids(chosen);
        assert p in Among(Others(st, anchor), PopularIds(st) - Ids(chosen));
      }
    }
  }

  /**
   * Stage 1 takes the first candidates in store order: a candidate is
   * never skipped in favour of one that comes later in the catalog.
   */
  lemma CollaborativeFirstRows(st: Store, requester: Requester, anchor: Product, limit: nat)
    requires UniqueIds(st.catalog)
    ensures var r := Collaborative(st, requester, anchor, limit);
            forall i, j :: 0 <= i < j < |st.catalog| && st.catalog[j] in r &&
                           st.catalog[i].id != anchor.id &&
                           (exists u :: Engaged(st, u, anchor.id) && Engaged(st, u, st.catalog[i].id)) ==>
                             st.catalog[i] in r
  {
    var r := Collaborative(st, requester, anchor, limit);
    if r != [] {
      var users := InterestedUsers(st, anchor.id);
      var ids := CoInteracted(st, users, anchor.id);
      var among := Among(Others(st, anchor), ids);
      SubsequenceTransitive(among, Others(st, anchor), st.catalog);
      forall i, j | 0 <= i < j < |st.catalog| && st.catalog[j] in r && st.catalog[i].id != anchor.id &&
                    (exists u :: Engaged(st, u, anchor.id) && Engaged(st, u, st.catalog[i].id))
        ensures st.catalog[i] in r
      {
        var u :| Engaged(st, u, anchor.id) && Engaged(st, u, st.catalog[i].id);
        InterestedUsersMeaning(st, anchor.id, u);
        CoInteractedMeaning(st, users, anchor.id, st.catalog[i].id);
        TakeKeepsEarlierRows(among, st.catalog, limit, i, j);
      }
    }
  }

  /**
   * Stage 2 takes the first rows of the category in store order: a
   * candidate is never skipped in favour of one that comes later.
   */
  lemma SameCategoryFirstRows(st: Store, anchor: Product, limit: nat, chosen: seq<Product>)
    requires UniqueIds(st.catalog)
    ensures var r := SameCategory(st, anchor, limit, chosen);
            forall i, j :: 0 <= i < j < |st.catalog| && st.catalog[j] in r &&
                           st.catalog[i].id != anchor.id && st.catalog[i].category == anchor.category &&
                           st.catalog[i].id !in Ids(chosen) ==>
                             st.catalog[i] in r
  {
    if |chosen| < limit {
      var others := Others(st, anchor);
      var same := InCategory(others, anchor.category);
      var unchosen := Excluding(same, Ids(chosen));
      SubsequenceTransitive(same, others, st.catalog);
      SubsequenceTransitive(unchosen, same, st.catalog);
      forall i, j | 0 <= i < j < |st.catalog| && st.catalog[j] in SameCategory(st, anchor, limit, chosen) &&
                    st.catalog[i].id != anchor.id && st.catalog[i].category == anchor.category &&
                    st.catalog[i].id !in Ids(chosen)
        ensures st.catalog[i] in SameCategory(st, anchor, limit, chosen)
      {
        TakeKeepsEarlierRows(unchosen, st.catalog, limit - |chosen|, i, j);
      }
    }
  }

  /**
   * Stage 3 takes the first popular rows in store order, whatever their
   * scores: a popular candidate is never skipped in favour of a later one.
   */
  lemma PopularFirstRows(st: Store, anchor: Product, limit: nat, chosen: seq<Product>)
    requires UniqueIds(st.catalog)
    ensures var r := Popular(st, anchor, limit, chosen);
            forall i, j :: 0 <= i < j < |st.catalog| && st.catalog[j] in r &&
                           st.catalog[i].id != anchor.id && Score(st, st.catalog[i].id) >= 1 &&
                           st.catalog[i].id !in Ids(chosen) ==>
                             st.catalog[i] in r
  {
    var r := Popular(st, anchor, limit, chosen);
    if r != [] {
      var ids := PopularIds(st) - Ids(chosen);
      var among := Among(Others(st, anchor), ids);
      SubsequenceTransitive(among, Others(st, anchor), st.catalog);
      forall i, j | 0 <= i < j < |st.catalog| && st.catalog[j] in r && st.catalog[i].id != anchor.id &&
                    Score(st, st.catalog[i].id) >= 1 && st.catalog[i].id !in Ids(chosen)
        ensures st.catalog[i] in r
      {
        PopularIdsScore(st, st.catalog[i].id);
        TakeKeepsEarlierRows(among, st.catalog, limit - |chosen|, i, j);
      }
    }
  }

  /** Stage 3 takes its picks in store (catalog) order, whatever their scores. */
  lemma PopularInStoreOrder(st: Store, anchor: Product, limit: nat, chosen: seq<Product>)
    ensures SubsequenceOf(Popular(st, anchor, limit, chosen), st.catalog)
  {
    var r := Popular(st, anchor, limit, chosen);
    if r != [] {
      var ids := PopularIds(st) - Ids(chosen);
      var among := Among(Others(st, anchor), ids);
      SubsequenceTransitive(among, Others(st, anchor), st.catalog);
      SubsequencePrefix(among, st.catalog, |r|);
    }
  }

  /**
   * A store where the sort by popularity is lost: product 2 is saved once,
   * product 3 sits in two carts, and nothing shares the anchor's category.
   */
  function ExampleStore(): Store
  {
    Store([Product(1, 1), Product(2, 2), Product(3, 3)],
          [SavedItem(10, 2)],
          [CartItem(10, 3, 1), CartItem(11, 3, 1)])
  }

  lemma ExampleScores()
    ensures Score(ExampleStore(), 2) == 1 && Score(ExampleStore(), 3) == 2
  {
    var st := ExampleStore();
    assert st.saved[..0] == [];
    assert st.carts[..1] == [CartItem(10, 3, 1)] && st.carts[..1][..0] == [];
    assert SaveCount(st.saved, 2) == 1 && SaveCount(st.saved, 3) == 0;
    assert CartCount([], 3) == 0;
    assert CartCount(st.carts[..1], 2) == 0 && CartCount(st.carts[..1], 3) == 1;
  }

  /** In the example store, the base queryset for product 1 holds products 2 and 3. */
  lemma ExampleOthers()
    ensures Others(ExampleStore(), Product(1, 1)) == [Product(2, 2), Product(3, 3)]
  {
    var p1, p2, p3 := Product(1, 1), Product(2, 2), Product(3, 3);
    assert [p1, p2, p3][1..] == [p2, p3] && [p2, p3][1..] == [p3] && [p3][1..] == [];
    assert Excluding([p3], {1}) == [p3];
    assert Excluding([p2, p3], {1}) == [p2, p3];
  }

  /** In the example store, an anonymous visitor gets nothing from stages 1 and 2. */
  lemma ExampleEarlyStages()
    ensures Collaborative(ExampleStore(), NoUser, Product(1, 1), 5) == []
    ensures SameCategory(ExampleStore(), Product(1, 1), 5, []) == []
  {
    var p2, p3 := Product(2, 2), Product(3, 3);
    ExampleOthers();
    assert [p2, p3][1..] == [p3] && [p3][1..] == [];
    assert InCategory([p2, p3], 1) == [];
  }

  /** In the example store, stage 3 returns products 2 and 3 in catalog order. */
  lemma ExamplePopularStage()
    ensures Popular(ExampleStore(), Product(1, 1), 5, []) == [Product(2, 2), Product(3, 3)]
  {
    var p2, p3 := Product(2, 2), Product(3, 3);
    var st := ExampleStore();
    ExampleOthers();
    assert Ids([]) == {};
    assert PopularIds(st) == {2, 3} by {
      assert (set s | s in st.saved :: s.product) == {2};
      assert (set c | c in st.carts :: c.product) == {3};
    }
    assert [p2, p3][1..] == [p3] && [p3][1..] == [];
    assert Among([p2, p3], {2, 3}) == [p2, p3];
  }

  /**
   * The sort by popularity is lost: a product referenced once comes before
   * one referenced twice because it comes first in the catalog.
   */
  lemma PopularityOrderNotKept()
    ensures Ranked(ExampleStore(), NoUser, Product(1, 1), 5) == [Product(2, 2), Product(3, 3)]
    ensures Score(ExampleStore(), 2) < Score(ExampleStore(), 3)
  {
    ExampleScores();
    ExampleEarlyStages();
    ExamplePopularStage();
  }

  /**
   * The popularity dictionary, filled from the saved rows and then from
   * the cart rows: a product's entry is its saved-row count plus its
   * cart-row count, and only referenced products have an entry.
   */
  method ProductPopularity(saved: seq<SavedItem>, carts: seq<CartItem>) returns (popularity: map<ProductId, nat>)
    ensures forall pid :: pid in popularity <==> SaveCount(saved, pid) + CartCount(carts, pid) > 0
    ensures forall pid :: pid in popularity ==> popularity[pid] == SaveCount(saved, pid) + CartCount(carts, pid)
  {
    popularity := map[];
    var i := 0;
    while i < |saved|
      invariant 0 <= i <= |saved|
      invariant forall pid :: pid in popularity <==> SaveCount(saved[..i], pid) > 0
      invariant forall pid :: pid in popularity ==> popularity[pid] == SaveCount(saved[..i], pid)
    {
      var pid := saved[i].product;
      if pid in popularity {
        popularity := popularity[pid := popularity[pid] + 1];
      } else {
        popularity := popularity[pid := 1];
      }
      assert saved[..i + 1][..i] == saved[..i];
      i := i + 1;
    }
    assert saved[..i] == saved;
    var j := 0;
    while j < |carts|
      invariant 0 <= j <= |carts|
      invariant forall pid :: pid in popularity <==> SaveCount(saved, pid) + CartCount(carts[..j], pid) > 0
      invariant forall pid :: pid in popularity ==> popularity[pid] == SaveCount(saved, pid) + CartCount(carts[..j], pid)
    {
      var pid := carts[j].product;
      if pid in popularity {
        popularity := popularity[pid := popularity[pid] + 1];
      } else {
        popularity := popularity[pid := 1];
      }
      assert carts[..j + 1][..j] == carts[..j];
      j := j + 1;
    }
    assert carts[..j] == carts;
  }

  /**
   * `pool.order_by('?')[:needed]`: up to `needed` distinct rows of `pool`,
   * each chosen freely among those not yet taken.
   */
  method RandomFill(pool: seq<Product>, needed: nat) returns (picks: seq<Product>)
    ensures forall p :: p in picks ==> p in pool
    ensures forall i, j :: 0 <= i < j < |picks| ==> picks[i] != picks[j]
    ensures |picks| == Min(needed, |set p | p in pool|)
  {
    var remaining := set p | p in pool;
    picks := [];
    while |picks| < needed && remaining != {}
      invariant remaining <= set p | p in pool
      invariant forall p :: p in picks ==> p in pool && p !in remaining
      invariant forall i, j :: 0 <= i < j < |picks| ==> picks[i] != picks[j]
      invariant |picks| + |remaining| == |set p | p in pool|
      invariant |picks| <= needed
      decreases remaining
    {
      var p :| p in remaining;
      picks := picks + [p];
      remaining := remaining - {p};
    }
  }

  /** The keys of a dictionary built by `ProductPopularity` are the popular products. */
  lemma PopularityKeys(st: Store, popularity: map<ProductId, nat>)
    requires forall pid :: pid in popularity <==> SaveCount(st.saved, pid) + CartCount(st.carts, pid) > 0
    ensures popularity.Keys == PopularIds(st)
  {
    forall pid ensures pid in popularity <==> pid in PopularIds(st) {
      PopularIdsScore(st, pid);
    }
  }

  /**
   * Stage 3 as the source runs it: build the popularity dictionary, drop
   * the products already chosen, and fetch the rest from the base
   * queryset, up to the remaining budget.
   */
  method PopularStage(st: Store, anchor: Product, limit: nat, chosen: seq<Product>) returns (extra: seq<Product>)
    requires |chosen| < limit
    ensures extra == Popular(st, anchor, limit, chosen)
  {
    var needed := limit - |chosen|;
    var popularity := ProductPopularity(st.saved, st.carts);
    PopularityKeys(st, popularity);
    var popular := popularity.Keys - Ids(chosen);
    extra := [];
    if popular != {} {
      extra := Take(Among(Excluding(st.catalog, {anchor.id}), popular), needed);
    }
  }

  /**
   * Stages 1 to 3 as the source runs them: `recommended` starts empty and
   * each stage extends it while it is shorter than `limit`.
   */
  method RankedStages(st: Store, requester: Requester, anchor: Product, limit: nat)
    returns (recommended: seq<Product>)
    ensures recommended == Ranked(st, requester, anchor, limit)
  {
    var base := Excluding(st.catalog, {anchor.id});
    recommended := [];
    // 1. products co-interacted with the anchor
    if requester.SignedIn? {
      var users := InterestedUsers(st, anchor.id);
      if users != {} {
        var ids := CoInteracted(st, users, anchor.id);
        if ids != {} {
          recommended := recommended + Take(Among(base, ids), limit);
        }
      }
    }
    assert recommended == Collaborative(st, requester, anchor, limit);
    ghost var s1 := recommended;
    // 2. the anchor's category
    if |recommended| < limit {
      var needed := limit - |recommended|;
      recommended := recommended + Take(Excluding(InCategory(base, anchor.category), Ids(recommended)), needed);
    }
    assert recommended == s1 + SameCategory(st, anchor, limit, s1);
    ghost var s2 := recommended;
    // 3. products with any interaction
    if |recommended| < limit {
      var extra := PopularStage(st, anchor, limit, recommended);
      recommended := recommended + extra;
    }
    assert recommended == s2 + Popular(st, anchor, limit, s2);
  }

  /**
   * Stage 4 as the source runs it: random rows of the base queryset not
   * yet chosen, as many as the remaining budget asks for or as there are.
   */
  method FillStage(st: Store, anchor: Product, limit: nat, ranked: seq<Product>) returns (fill: seq<Product>)
    requires UniqueIds(st.catalog) && UniqueIds(ranked) && |ranked| < limit
    requires forall p :: p in ranked ==> p in st.catalog && p.id != anchor.id
    ensures forall p :: p in fill ==> p in st.catalog && p.id != anchor.id && p.id !in Ids(ranked)
    ensures UniqueIds(ranked + fill)
    ensures |ranked + fill| == Min(limit, |Others(st, anchor)|)
  {
    var needed := limit - |ranked|;
    var pool := Excluding(Excluding(st.catalog, {anchor.id}), Ids(ranked));
    fill := RandomFill(pool, needed);
    FillSize(st, anchor, ranked, pool);
    FillUnique(st, anchor, pool, fill);
    UniqueIdsConcat(ranked, fill);
    assert |fill| == Min(needed, |Others(st, anchor)| - |ranked|);
  }

  /**
   * The recommender as the source runs it: stages 1 to 3, then random
   * filler from every other product not yet chosen, then the slice to
   * `limit`.
   */
  method GetRecommendedProducts(st: Store, requester: Requester, anchor: Product, limit: nat)
    returns (recommended: seq<Product>)
    requires UniqueIds(st.catalog)
    ensures Ranked(st, requester, anchor, limit) <= recommended
    ensures forall i :: |Ranked(st, requester, anchor, limit)| <= i < |recommended| ==>
      recommended[i].id !in Ids(Ranked(st, requester, anchor, limit))
    ensures forall p :: p in recommended ==> p in st.catalog && p.id != anchor.id
    ensures UniqueIds(recommended)
    ensures |recommended| == Min(limit, |Others(st, anchor)|)
    ensures Collaborative(st, requester, anchor, limit) == [] &&
            |InCategory(Others(st, anchor), anchor.category)| >= limit ==>
              forall p :: p in recommended ==> p.category == anchor.category
  {
    recommended := RankedStages(st, requester, anchor, limit);
    ghost var ranked := recommended;
    // 4. random filler
    if |recommended| < limit {
      var fill := FillStage(st, anchor, limit, recommended);
      recommended := recommended + fill;
    } else {
      OthersSize(st, anchor, ranked);
      assert |recommended| == limit == Min(limit, |Others(st, anchor)|);
    }
    assert ranked <= recommended && |recommended| <= limit;
    // the final slice `recommended[:limit]` keeps everything
    recommended := Take(recommended, limit);
    if Collaborative(st, requester, anchor, limit) == [] &&
       |InCategory(Others(st, anchor), anchor.category)| >= limit {
      CategoryFallback(st, requester, anchor, limit);
    }
  }

  /** A subset has no more elements than its superset. */
  lemma {:induction false} SubsetCardinality(a: set<Product>, b: set<Product>)
    requires a <= b
    ensures |a| <= |b|
    decreases a
  {
    if a != {} {
      var x :| x in a;
      SubsetCardinality(a - {x}, b - {x});
    }
  }

  /** A full list from stages 1 to 3 means the catalog had at least `limit` other products. */
  lemma OthersSize(st: Store, anchor: Product, ranked: seq<Product>)
    requires UniqueIds(st.catalog) && UniqueIds(ranked)
    requires forall p :: p in ranked ==> p in st.catalog && p.id != anchor.id
    ensures |ranked| <= |Others(st, anchor)|
  {
    var others := Others(st, anchor);
    UniqueIdsCardinality(ranked);
    UniqueIdsCardinality(others);
    SubsetCardinality(set p | p in ranked, set p | p in others);
  }

  /** Two rows of a catalog with unique ids that share an id are the same row. */
  lemma SameIdSameRow(ps: seq<Product>, p: Product, q: Product)
    requires UniqueIds(ps) && p in ps && q in ps && p.id == q.id
    ensures p == q
  {
    var i :| 0 <= i < |ps| && ps[i] == p;
    var j :| 0 <= j < |ps| && ps[j] == q;
    assert !(i < j) && !(j < i);
  }

  /** Removing a subset removes exactly its elements. */
  lemma DifferenceCardinality(a: set<Product>, b: set<Product>)
    requires b <= a
    ensures |a - b| == |a| - |b|
  {
    assert a == (a - b) + b;
  }

  /** The random stage's pool holds exactly the other products not yet chosen. */
  lemma PoolContents(st: Store, anchor: Product, ranked: seq<Product>, pool: seq<Product>)
    requires UniqueIds(st.catalog)
    requires forall p :: p in ranked ==> p in st.catalog && p.id != anchor.id
    requires pool == Excluding(Others(st, anchor), Ids(ranked))
    ensures (set p | p in pool) == (set p | p in Others(st, anchor)) - (set p | p in ranked)
  {
    var others := Others(st, anchor);
    forall p | p in others && p !in ranked ensures p in pool {
      if p.id in Ids(ranked) {
        var q :| q in ranked && q.id == p.id;
        SameIdSameRow(others, p, q);
      }
    }
  }

  /** What the random stage can draw from: every other product not yet chosen. */
  lemma FillSize(st: Store, anchor: Product, ranked: seq<Product>, pool: seq<Product>)
    requires UniqueIds(st.catalog) && UniqueIds(ranked)
    requires forall p :: p in ranked ==> p in st.catalog && p.id != anchor.id
    requires pool == Excluding(Others(st, anchor), Ids(ranked))
    ensures |set p | p in pool| == |Others(st, anchor)| - |ranked|
  {
    var others := Others(st, anchor);
    UniqueIdsCardinality(ranked);
    UniqueIdsCardinality(others);
    PoolContents(st, anchor, ranked, pool);
    DifferenceCardinality(set p | p in others, set p | p in ranked);
  }

  /** Distinct rows drawn from the catalog have distinct ids. */
  lemma FillUnique(st: Store, anchor: Product, pool: seq<Product>, fill: seq<Product>)
    requires UniqueIds(st.catalog)
    requires forall p :: p in pool ==> p in st.catalog
    requires forall p :: p in fill ==> p in pool
    requires forall i, j :: 0 <= i < j < |fill| ==> fill[i] != fill[j]
    ensures UniqueIds(fill)
  {
    forall i, j | 0 <= i < j < |fill| ensures fill[i].id != fill[j].id {
      if fill[i].id == fill[j].id {
        SameIdSameRow(st.catalog, fill[i], fill[j]);
      }
    }
  }
}
