/**
 * How the two product sources, the stored `products` list and the fetched static catalogue,
 * become the list on screen: the admin panel merges them by id, the storefront concatenates
 * them and cuts the result into two shelves.
 */
module Reconcile {
  import opened Seqs
  import opened Products

  /** `jp => !localProducts.some(lp => lp.id === jp.id)` */
  function FreshIn(local: seq<Product>): Product -> bool {
    (p: Product) => p.id !in Ids(local)
  }

  /**
   * The admin panel's `allProducts`: every local product in its order, then the remote products
   * whose id no local product has, in remote order. Local products win every id collision.
   */
  function MergeProducts(local: seq<Product>, remote: seq<Product>): (all: seq<Product>)
    ensures |local| <= |all| <= |local| + |remote|
    ensures all[..|local|] == local
    ensures IsSubseq(all[|local|..], remote)
    ensures forall p | p in all[|local|..] :: p in remote && p.id !in Ids(local)
    ensures forall p | p in remote && p.id !in Ids(local) :: p in all
    ensures forall p | p in all && p.id in Ids(local) :: p in local
    ensures forall p | p in remote && p.id !in Ids(local) :: multiset(all[|local|..])[p] == multiset(remote)[p]
  {
    var added := Filter(remote, FreshIn(local));
    assert (local + added)[|local|..] == added;
    local + added
  }

  /** A failed fetch (no remote products) leaves the local list as it is. */
  lemma MergeEmptyRemote(local: seq<Product>)
    ensures MergeProducts(local, []) == local
  {
  }

  /** With nothing stored locally the remote list is shown as fetched. */
  lemma MergeEmptyLocal(remote: seq<Product>)
    ensures MergeProducts([], remote) == remote
  {
    FilterAll(remote, FreshIn([]));
  }

  /** The merged list carries every id of either source. */
  lemma MergeIds(local: seq<Product>, remote: seq<Product>)
    ensures Ids(MergeProducts(local, remote)) == Ids(local) + Ids(remote)
  {
    var all := MergeProducts(local, remote);
    var added := Filter(remote, FreshIn(local));
    assert all == local + added;
    forall id | id in Ids(local) + Ids(remote) ensures id in Ids(all) {
      if id in Ids(local) {
        var p :| p in local && p.id == id;
        assert p in all;
      } else {
        var p :| p in remote && p.id == id;
        assert p in added;
      }
    }
    forall id | id in Ids(all) ensures id in Ids(local) + Ids(remote) {
      var p :| p in all && p.id == id;
      if p !in local {
        assert p in added;
      }
    }
  }

  /** Two id-unique sources merge into an id-unique list. */
  lemma MergeIdUnique(local: seq<Product>, remote: seq<Product>)
    requires IdUnique(local) && IdUnique(remote)
    ensures IdUnique(MergeProducts(local, remote))
  {
    var added := Filter(remote, FreshIn(local));
    FilterIdUnique(remote, FreshIn(local));
    ConcatIdUnique(local, added);
  }

  /**
   * With id-unique sources the merged list holds the local products plus one product for each
   * remote id that is not a local id.
   */
  lemma MergeLength(local: seq<Product>, remote: seq<Product>)
    requires IdUnique(local) && IdUnique(remote)
    ensures |MergeProducts(local, remote)| == |local| + |Ids(remote) - Ids(local)|
  {
    var added := Filter(remote, FreshIn(local));
    FilterIdUnique(remote, FreshIn(local));
    IdUniqueCard(added);
    forall id | id in Ids(remote) - Ids(local) ensures id in Ids(added) {
      var p :| p in remote && p.id == id;
      assert p in added;
    }
    assert Ids(added) == Ids(remote) - Ids(local);
  }

  /** The storefront's list: local products then every remote product, with no id filtering. */
  function StorefrontProducts(local: seq<Product>, remote: seq<Product>): (all: seq<Product>)
    ensures |all| == |local| + |remote|
    ensures all[..|local|] == local && all[|local|..] == remote
  {
    local + remote
  }

  /**
   * The two versions agree exactly when no remote id is also a local id; otherwise the
   * storefront shows the colliding remote products that the admin panel drops.
   */
  lemma MergeIsStorefrontIffDisjoint(local: seq<Product>, remote: seq<Product>)
    ensures MergeProducts(local, remote) == StorefrontProducts(local, remote) <==> Ids(local) !! Ids(remote)
  {
    var added := Filter(remote, FreshIn(local));
    if Ids(local) !! Ids(remote) {
      forall p | p in remote ensures FreshIn(local)(p) {
        assert p.id in Ids(remote);
      }
      FilterAll(remote, FreshIn(local));
    }
    if MergeProducts(local, remote) == StorefrontProducts(local, remote) {
      assert added == (local + added)[|local|..] == (local + remote)[|local|..] == remote;
      forall id | id in Ids(remote) ensures id !in Ids(local) {
        var p :| p in remote && p.id == id;
        assert p in added;
      }
    }
  }

  /** A local product and a remote product with the same id: the admin panel shows one, the storefront both. */
  lemma StorefrontShowsCollisions(l: Product, r: Product)
    requires l.id == r.id
    ensures MergeProducts([l], [r]) == [l]
    ensures StorefrontProducts([l], [r]) == [l, r] && !IdUnique(StorefrontProducts([l], [r]))
  {
    assert !FreshIn([l])(r);
  }

  /** `array.slice(start, end)`: both ends are cut down to the length. */
  function Slice(s: seq<Product>, start: nat, end: nat): (r: seq<Product>)
    ensures |r| == if start < end && start < |s| then (if end < |s| then end else |s|) - start else 0
    ensures forall i :: 0 <= i < |r| ==> start + i < |s| && r[i] == s[start + i]
  {
    var e := if end < |s| then end else |s|;
    var b := if start < e then start else e;
    s[b..e]
  }

  /** What the storefront's `loadProducts` renders. */
  datatype Storefront = NoProducts | Shelves(bestSellers: seq<Product>, newProducts: seq<Product>)

  /**
   * The storefront page: with no products at all the "no products" message, otherwise the first
   * eight products as best sellers and the next eight as new products.
   */
  function LoadStorefront(local: seq<Product>, remote: seq<Product>): (page: Storefront)
    ensures page.NoProducts? <==> local == [] && remote == []
    ensures page.Shelves? ==>
      var all := local + remote;
      && |page.bestSellers| == (if |all| < 8 then |all| else 8)
      && |page.newProducts| <= 8
      && page.bestSellers + page.newProducts == all[..if |all| < 16 then |all| else 16]
  {
    var all := StorefrontProducts(local, remote);
    if |all| > 0 then Shelves(Slice(all, 0, 8), Slice(all, 8, 16)) else NoProducts
  }
}
