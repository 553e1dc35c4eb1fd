/**
 * Product records as the admin form and the stored `products` list hold them.
 * Ids are the numbers `Date.now()` hands out; update and delete look them up with loose
 * `==`/`!=` and the merge with strict `===`, which coincide here because every id is an `int`.
 */
module Products {
  import opened Wrappers
  import opened Seqs

  /** A price after `parseFloat`; `None` is NaN. */
  type Price = Option<real>

  /** The eight form fields of a product (the object the admin form builds before saving). */
  datatype ProductData = ProductData(
    name: string,
    category: string,
    description: string,
    imageUrl: string,
    originalPrice: Price,
    salePrice: Price,
    colors: seq<string>,
    stockQuantity: int)

  /** A stored product: an id, the form fields, the creation time and, once edited, the update time. */
  datatype Product = Product(id: int, data: ProductData, createdAt: string, updatedAt: Option<string>)

  /** The ids that occur in `ps`. */
  function Ids(ps: seq<Product>): set<int> {
    set p | p in ps :: p.id
  }

  /** No two products of `ps` share an id. */
  predicate IdUnique(ps: seq<Product>) {
    forall i, j :: 0 <= i < j < |ps| ==> ps[i].id != ps[j].id
  }

  lemma IdsCons(ps: seq<Product>)
    requires ps != []
    ensures Ids(ps) == {ps[0].id} + Ids(ps[1..])
    ensures forall id :: id in Ids(ps[1..]) ==> exists k :: 0 <= k < |ps| - 1 && ps[1..][k].id == id
  {
    assert ps == [ps[0]] + ps[1..];
  }

  /** A list with distinct ids has as many ids as elements. */
  lemma {:induction false} IdUniqueCard(ps: seq<Product>)
    requires IdUnique(ps)
    ensures |Ids(ps)| == |ps|
  {
    if ps != [] {
      var tail := ps[1..];
      IdUniqueCard(tail);
      IdsCons(ps);
      assert ps[0].id !in Ids(tail) by {
        forall k | 0 <= k < |tail| ensures tail[k].id != ps[0].id {
          assert tail[k] == ps[k + 1];
        }
      }
    }
  }

  /** Putting a product whose id is new in front of an id-unique list keeps it id-unique. */
  lemma ConsIdUnique(p: Product, ps: seq<Product>)
    requires IdUnique(ps)
    requires forall m :: 0 <= m < |ps| ==> ps[m].id != p.id
    ensures IdUnique([p] + ps)
  {
    var r := [p] + ps;
    forall i, j | 0 <= i < j < |r| ensures r[i].id != r[j].id {
      assert r[j] == ps[j - 1];
      if i > 0 {
        assert r[i] == ps[i - 1];
      }
    }
  }

  /** Filtering keeps distinct ids distinct. */
  lemma {:induction false} FilterIdUnique(ps: seq<Product>, f: Product -> bool)
    requires IdUnique(ps)
    ensures IdUnique(Filter(ps, f))
  {
    if ps != [] {
      var tail := ps[1..];
      FilterIdUnique(tail, f);
      var rest := Filter(tail, f);
      if f(ps[0]) {
        forall m | 0 <= m < |rest| ensures rest[m].id != ps[0].id {
          assert rest[m] in tail;
          var k :| 0 <= k < |tail| && tail[k] == rest[m];
          assert tail[k] == ps[k + 1];
        }
        ConsIdUnique(ps[0], rest);
      }
    }
  }

  /** Two id-unique lists with no id in common concatenate to an id-unique list. */
  lemma ConcatIdUnique(a: seq<Product>, b: seq<Product>)
    requires IdUnique(a) && IdUnique(b)
    requires Ids(a) !! Ids(b)
    ensures IdUnique(a + b)
  {
    var r := a + b;
    forall i, j | 0 <= i < j < |r| ensures r[i].id != r[j].id {
      if j >= |a| {
        assert r[j] == b[j - |a|];
        if i < |a| {
          assert r[i] == a[i] && a[i] in a && b[j - |a|] in b;
          assert a[i].id in Ids(a) && b[j - |a|].id in Ids(b);
        } else {
          assert r[i] == b[i - |a|];
        }
      } else {
        assert r[i] == a[i] && r[j] == a[j];
      }
    }
  }
}
