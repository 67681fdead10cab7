/** The product catalog store of src/contexts/ProductContext.tsx: an in-memory
    list of products with add, update and delete. Each operation is a pure
    function from the old list to the new one (the argument of `setProducts`). */
module Catalog {
  import opened Values
  import Seqs
  import Price
  import Text

  /** Everything a product carries besides its identifier: the argument of
      `addProduct`, `Omit<Product, 'id'>`. Ratings are exact rationals. */
  datatype Info = Info(
    name: string,
    category: string,
    price: string,
    originalPrice: Option<string>,
    image: string,
    badge: Option<string>,
    rating: Option<real>,
    stock: Option<int>,
    description: Option<string>)

  datatype Product = Product(id: int, info: Info)

  /** `Partial<Product>`: every key may be missing (None). */
  datatype Patch = Patch(
    id: Option<int>,
    name: Option<string>,
    category: Option<string>,
    price: Option<string>,
    originalPrice: Option<string>,
    image: Option<string>,
    badge: Option<string>,
    rating: Option<real>,
    stock: Option<int>,
    description: Option<string>)

  const EmptyPatch := Patch(None, None, None, None, None, None, None, None, None, None)

  /** Present keys of an optional field set it; absent keys keep it. */
  function OverrideOptional<T>(patch: Option<T>, current: Option<T>): Option<T> {
    if patch.Some? then patch else current
  }

  /** `{ ...p, ...patch }`: a field present in the patch takes the patch's
      value, a field absent from it keeps the product's value, and the empty
      patch changes nothing. */
  function ApplyPatch(p: Product, patch: Patch): (q: Product)
    ensures (patch.id.Some? ==> q.id == patch.id.value) && (patch.id.None? ==> q.id == p.id)
    ensures (patch.name.Some? ==> q.info.name == patch.name.value) && (patch.name.None? ==> q.info.name == p.info.name)
    ensures (patch.category.Some? ==> q.info.category == patch.category.value)
      && (patch.category.None? ==> q.info.category == p.info.category)
    ensures (patch.price.Some? ==> q.info.price == patch.price.value) && (patch.price.None? ==> q.info.price == p.info.price)
    ensures (patch.originalPrice.Some? ==> q.info.originalPrice == patch.originalPrice)
      && (patch.originalPrice.None? ==> q.info.originalPrice == p.info.originalPrice)
    ensures (patch.image.Some? ==> q.info.image == patch.image.value) && (patch.image.None? ==> q.info.image == p.info.image)
    ensures (patch.badge.Some? ==> q.info.badge == patch.badge) && (patch.badge.None? ==> q.info.badge == p.info.badge)
    ensures (patch.rating.Some? ==> q.info.rating == patch.rating) && (patch.rating.None? ==> q.info.rating == p.info.rating)
    ensures (patch.stock.Some? ==> q.info.stock == patch.stock) && (patch.stock.None? ==> q.info.stock == p.info.stock)
    ensures (patch.description.Some? ==> q.info.description == patch.description)
      && (patch.description.None? ==> q.info.description == p.info.description)
    ensures patch == EmptyPatch ==> q == p
  {
    Product(
      Override(patch.id, p.id),
      Info(
        Override(patch.name, p.info.name),
        Override(patch.category, p.info.category),
        Override(patch.price, p.info.price),
        OverrideOptional(patch.originalPrice, p.info.originalPrice),
        Override(patch.image, p.info.image),
        OverrideOptional(patch.badge, p.info.badge),
        OverrideOptional(patch.rating, p.info.rating),
        OverrideOptional(patch.stock, p.info.stock),
        OverrideOptional(patch.description, p.info.description)))
  }

  /** `{ ...a, ...b }` on two partial products: keys of `b` win. */
  function MergePatches(a: Patch, b: Patch): Patch {
    Patch(
      OverrideOptional(b.id, a.id),
      OverrideOptional(b.name, a.name),
      OverrideOptional(b.category, a.category),
      OverrideOptional(b.price, a.price),
      OverrideOptional(b.originalPrice, a.originalPrice),
      OverrideOptional(b.image, a.image),
      OverrideOptional(b.badge, a.badge),
      OverrideOptional(b.rating, a.rating),
      OverrideOptional(b.stock, a.stock),
      OverrideOptional(b.description, a.description))
  }

  /** Spreading two patches one after the other is spreading their merge. */
  lemma PatchComposition(p: Product, a: Patch, b: Patch)
    ensures ApplyPatch(ApplyPatch(p, a), b) == ApplyPatch(p, MergePatches(a, b))
  {
  }

  /** Spreading the same patch again changes nothing. */
  lemma PatchIdempotent(p: Product, patch: Patch)
    ensures ApplyPatch(ApplyPatch(p, patch), patch) == ApplyPatch(p, patch)
  {
  }

  // ---------------------------------------------------------------------------
  // The list and its identifier invariant

  predicate HasId(ps: seq<Product>, id: int) {
    exists i :: 0 <= i < |ps| && ps[i].id == id
  }

  /** No two products share an identifier. */
  predicate UniqueIds(ps: seq<Product>) {
    forall i, j :: 0 <= i < j < |ps| ==> ps[i].id != ps[j].id
  }

  /** `Math.max(...products.map(p => p.id), 0)`. */
  function MaxId(ps: seq<Product>): (r: int)
    ensures r >= 0
    ensures forall i :: 0 <= i < |ps| ==> ps[i].id <= r
    ensures r == 0 || HasId(ps, r)
    decreases |ps|
  {
    if |ps| == 0 then 0
    else
      var rest := MaxId(ps[1..]);
      assert forall i :: 1 <= i < |ps| ==> ps[i] == ps[1..][i - 1];
      if ps[0].id > rest then ps[0].id else rest
  }

  /** The identifier `addProduct` hands out. */
  function NextId(ps: seq<Product>): (r: int)
    ensures r >= 1
    ensures forall i :: 0 <= i < |ps| ==> ps[i].id < r
    ensures |ps| == 0 ==> r == 1
    ensures r == 1 || HasId(ps, r - 1)
  {
    MaxId(ps) + 1
  }

  /** `addProduct(info)`: the new product goes at the end with a fresh id. */
  function Add(ps: seq<Product>, info: Info): (r: seq<Product>)
    ensures |r| == |ps| + 1
    ensures r[..|ps|] == ps
    ensures r[|ps|].info == info
    ensures r[|ps|].id == NextId(ps)
    ensures !HasId(ps, r[|ps|].id)
    ensures forall i :: 0 <= i < |ps| ==> ps[i].id < r[|ps|].id
    ensures |ps| == 0 ==> r[0].id == 1
  {
    ps + [Product(NextId(ps), info)]
  }

  /** `updateProduct(id, patch)`. */
  function Update(ps: seq<Product>, id: int, patch: Patch): (r: seq<Product>)
    ensures |r| == |ps|
    ensures forall i :: 0 <= i < |ps| && ps[i].id != id ==> r[i] == ps[i]
    ensures forall i :: 0 <= i < |ps| && ps[i].id == id ==> r[i] == ApplyPatch(ps[i], patch)
    ensures !HasId(ps, id) ==> r == ps
  {
    seq(|ps|, i requires 0 <= i < |ps| => if ps[i].id == id then ApplyPatch(ps[i], patch) else ps[i])
  }

  function KeepOtherThan(id: int): Product -> bool {
    (p: Product) => p.id != id
  }

  /** `deleteProduct(id)`. */
  function Delete(ps: seq<Product>, id: int): (r: seq<Product>)
    ensures forall p :: p in r <==> p in ps && p.id != id
    ensures Seqs.IsSubsequence(r, ps)
    ensures !HasId(r, id)
    ensures !HasId(ps, id) ==> r == ps
  {
    var r := Seqs.Filter(ps, KeepOtherThan(id));
    assert forall i :: 0 <= i < |r| ==> r[i] in r;
    r
  }

  /** The search of the grid and of the product table: the lower-cased name
      or category contains the lower-cased query. */
  predicate SearchMatches(p: Product, query: string) {
    Text.Matches(p.info.name, query) || Text.Matches(p.info.category, query)
  }

  /** The search matches exactly the products whose lower-cased name or
      category contains the lower-cased query somewhere. */
  lemma SearchMatchesIffOccurs(p: Product, query: string)
    ensures SearchMatches(p, query) <==>
      (exists i :: Text.OccursAt(Text.Lower(p.info.name), Text.Lower(query), i))
      || (exists i :: Text.OccursAt(Text.Lower(p.info.category), Text.Lower(query), i))
  {
    Text.IncludesIffOccurs(Text.Lower(p.info.name), Text.Lower(query));
    Text.IncludesIffOccurs(Text.Lower(p.info.category), Text.Lower(query));
  }

  // ---------------------------------------------------------------------------
  // Properties of the store

  lemma {:induction false} AddKeepsIdsUnique(ps: seq<Product>, info: Info)
    requires UniqueIds(ps)
    ensures UniqueIds(Add(ps, info))
  {
    var r := Add(ps, info);
    forall i, j | 0 <= i < j < |r| ensures r[i].id != r[j].id {
      if j < |ps| {
        assert r[i] == ps[i] && r[j] == ps[j];
      } else {
        assert r[i] == ps[i];
      }
    }
  }

  /** The id a patch-free update writes into each slot is the old id. */
  lemma UpdateKeepsIds(ps: seq<Product>, id: int, patch: Patch)
    requires patch.id.None? || patch.id == Some(id)
    ensures forall i :: 0 <= i < |ps| ==> Update(ps, id, patch)[i].id == ps[i].id
  {
  }

  lemma {:induction false} UpdateKeepsIdsUnique(ps: seq<Product>, id: int, patch: Patch)
    requires UniqueIds(ps)
    requires patch.id.None? || patch.id == Some(id)
    ensures UniqueIds(Update(ps, id, patch))
  {
    UpdateKeepsIds(ps, id, patch);
  }

  /** Without the guard on the patch's own `id` key the spread can duplicate
      an identifier: a patch that renames product 1 to 2 in a catalog of
      products 1 and 2. */
  lemma UpdateWithIdKeyCanDuplicate(info: Info)
    ensures var ps := [Product(1, info), Product(2, info)];
      UniqueIds(ps) && !UniqueIds(Update(ps, 1, EmptyPatch.(id := Some(2))))
  {
    var ps := [Product(1, info), Product(2, info)];
    var r := Update(ps, 1, EmptyPatch.(id := Some(2)));
    assert r[0].id == 2 && r[1].id == 2;
  }

  lemma {:induction false} SubsequenceKeepsIdsUnique(a: seq<Product>, b: seq<Product>)
    requires Seqs.IsSubsequence(a, b)
    requires UniqueIds(b)
    ensures UniqueIds(a)
    decreases |b|
  {
    if |a| > 0 {
      assert UniqueIds(b[1..]) by {
        forall i, j | 0 <= i < j < |b[1..]| ensures b[1..][i].id != b[1..][j].id {
          assert b[1..][i] == b[i + 1] && b[1..][j] == b[j + 1];
        }
      }
      if a[0] == b[0] && Seqs.IsSubsequence(a[1..], b[1..]) {
        SubsequenceKeepsIdsUnique(a[1..], b[1..]);
        Seqs.SubsequenceMembers(a[1..], b[1..]);
        forall i, j | 0 <= i < j < |a| ensures a[i].id != a[j].id {
          if i == 0 {
            assert a[j] == a[1..][j - 1];
            assert a[j] in b[1..];
            var k :| 0 <= k < |b[1..]| && b[1..][k] == a[j];
            assert b[k + 1] == a[j];
          } else {
            assert a[i] == a[1..][i - 1] && a[j] == a[1..][j - 1];
          }
        }
      } else {
        SubsequenceKeepsIdsUnique(a, b[1..]);
      }
    }
  }

  lemma DeleteKeepsIdsUnique(ps: seq<Product>, id: int)
    requires UniqueIds(ps)
    ensures UniqueIds(Delete(ps, id))
  {
    SubsequenceKeepsIdsUnique(Delete(ps, id), ps);
  }

  /** Deleting keeps every other product, in order and with as many copies
      as before, and keeps no copy of a product with the deleted id. */
  lemma DeleteKeepsCopies(ps: seq<Product>, id: int, p: Product)
    ensures p.id != id ==> Seqs.Count(Delete(ps, id), p) == Seqs.Count(ps, p)
    ensures p.id == id ==> Seqs.Count(Delete(ps, id), p) == 0
  {
    Seqs.FilterCounts(ps, KeepOtherThan(id), p);
  }

  /** Deleting twice is deleting once. */
  lemma DeleteIdempotent(ps: seq<Product>, id: int)
    ensures Delete(Delete(ps, id), id) == Delete(ps, id)
  {
  }

  /** Deletions of two identifiers commute. */
  lemma {:induction false} DeleteCommutes(ps: seq<Product>, a: int, b: int)
    ensures Delete(Delete(ps, a), b) == Delete(Delete(ps, b), a)
  {
    var both: Product -> bool := (p: Product) => p.id != a && p.id != b;
    Seqs.FilterFusion(ps, KeepOtherThan(a), KeepOtherThan(b), both);
    Seqs.FilterFusion(ps, KeepOtherThan(b), KeepOtherThan(a), both);
  }

  /** Deleting the product just added gives the catalog back. */
  lemma {:induction false} DeleteUndoesAdd(ps: seq<Product>, info: Info)
    ensures Delete(Add(ps, info), NextId(ps)) == ps
  {
    var id := NextId(ps);
    Seqs.FilterAppend(ps, [Product(id, info)], KeepOtherThan(id));
    assert !HasId(ps, id);
  }

  /** Whatever an update did to a product is forgotten once it is deleted. */
  lemma {:induction false} DeleteAfterUpdate(ps: seq<Product>, id: int, patch: Patch)
    requires patch.id.None? || patch.id == Some(id)
    ensures Delete(Update(ps, id, patch), id) == Delete(ps, id)
    decreases |ps|
  {
    if |ps| > 0 {
      var u := Update(ps, id, patch);
      assert u[1..] == Update(ps[1..], id, patch);
      DeleteAfterUpdate(ps[1..], id, patch);
      var keep := KeepOtherThan(id);
      if keep(ps[0]) {
        assert u[0] == ps[0];
        calc {
          Delete(u, id);
          Seqs.Filter(u, keep);
          [u[0]] + Seqs.Filter(u[1..], keep);
          [ps[0]] + Seqs.Filter(ps[1..], keep);
          Seqs.Filter(ps, keep);
        }
      } else {
        assert !keep(u[0]);
        calc {
          Delete(u, id);
          Seqs.Filter(u, keep);
          Seqs.Filter(u[1..], keep);
          Seqs.Filter(ps[1..], keep);
          Seqs.Filter(ps, keep);
        }
      }
    }
  }

  // ---------------------------------------------------------------------------
  // The catalog the store starts with

  const InitialProducts: seq<Product> := [
    Product(1, Info("Premium Face Cream", "Cosmetics", "2,500", Some("3,500"),
      "https://images.unsplash.com/photo-1556228720-195a672e8a03?w=400&h=400&fit=crop",
      Some("Best Seller"), Some(4.8), Some(50),
      Some("Luxurious moisturizing face cream for radiant skin"))),
    Product(2, Info("Designer Kurta", "Clothes", "4,500", Some("6,000"),
      "https://images.unsplash.com/photo-1583391733981-b48d80a28438?w=400&h=400&fit=crop",
      Some("New"), Some(4.5), Some(30),
      Some("Elegant designer kurta with premium fabric"))),
    Product(3, Info("Stainless Steel Cookware Set", "Kitchenware", "8,999", Some("12,000"),
      "https://images.unsplash.com/photo-1584990347449-85f72e43a2ed?w=400&h=400&fit=crop",
      Some("Sale"), Some(4.7), Some(20),
      Some("Complete 12-piece cookware set for your kitchen"))),
    Product(4, Info("Wireless Earbuds", "Electronics", "3,999", None,
      "https://images.unsplash.com/photo-1590658268037-6bf12165a8df?w=400&h=400&fit=crop",
      None, Some(4.6), Some(100),
      Some("High-quality wireless earbuds with noise cancellation"))),
    Product(5, Info("Decorative Wall Art", "Home Decor", "2,200", None,
      "https://images.unsplash.com/photo-1513519245088-0e12902e35ca?w=400&h=400&fit=crop",
      Some("Featured"), Some(4.4), Some(15),
      Some("Beautiful wall art to enhance your living space"))),
    Product(6, Info("Leather Handbag", "Accessories", "5,500", Some("7,500"),
      "https://images.unsplash.com/photo-1584917865442-de89df76afd3?w=400&h=400&fit=crop",
      None, Some(4.9), Some(25),
      Some("Premium leather handbag with multiple compartments")))
  ]

  /** Every price of the starting catalog is a comma-grouped whole number. */
  lemma InitialPricesGrouped()
    ensures forall i :: 0 <= i < |InitialProducts| ==> Price.IsGrouped(InitialProducts[i].info.price)
  {
    forall i | 0 <= i < |InitialProducts|
      ensures Price.IsGrouped(InitialProducts[i].info.price)
    {
      var s := InitialProducts[i].info.price;
      assert |s| == 5 && s[1] == ',';
      assert s[..1] == [s[0]];
      assert Price.IsLeadGroup(s[..1]);
    }
  }

  /** The starting catalog holds products 1 to 6 in order, with distinct ids. */
  lemma InitialCatalogIds()
    ensures |InitialProducts| == 6
    ensures forall i :: 0 <= i < |InitialProducts| ==> InitialProducts[i].id == i + 1
    ensures UniqueIds(InitialProducts)
    ensures NextId(InitialProducts) == 7
  {
  }
}
