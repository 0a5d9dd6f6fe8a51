/**
 * The read side of ProductRepository: the filtered and ordered queries it
 * sends to the store, as functions of the stored rows.
 */
module Queries {
  import opened Wrappers
  import opened Entities
  import opened Text

  // ---------------------------------------------------------------------
  // Ordering by name (LINQ OrderBy on the Name column)
  // ---------------------------------------------------------------------

  function ProductKey(p: Product): string { p.name }

  function OptionKey(o: ProductOption): string { o.name }

  /** `s` is in ascending order of `key`. */
  ghost predicate SortedBy<T>(s: seq<T>, key: T -> string) {
    forall i, j :: 0 <= i < j < |s| ==> NameLe(key(s[i]), key(s[j]))
  }

  /** `x` placed before the first element of the sorted `s` that it does not follow. */
  function Insert<T>(x: T, s: seq<T>, key: T -> string): (r: seq<T>)
    requires SortedBy(s, key)
    ensures SortedBy(r, key)
    ensures multiset(r) == multiset(s) + multiset{x}
    decreases |s|
  {
    if s == [] then
      [x]
    else if NameLe(key(x), key(s[0])) then
      assert forall j :: 0 <= j < |s| ==> NameLe(key(x), key(s[j])) by {
        forall j | 0 <= j < |s| ensures NameLe(key(x), key(s[j])) {
          if j > 0 {
            NameLeTransitive(key(x), key(s[0]), key(s[j]));
          }
        }
      }
      assert multiset([x] + s) == multiset{x} + multiset(s);
      [x] + s
    else
      var tail := Insert(x, s[1..], key);
      NameLeTotal(key(x), key(s[0]));
      assert s == [s[0]] + s[1..];
      assert forall y :: y in tail ==> NameLe(key(s[0]), key(y)) by {
        forall y | y in tail ensures NameLe(key(s[0]), key(y)) {
          assert y in multiset(tail);
          if y != x {
            assert y in multiset(s[1..]);
            var j :| 0 <= j < |s[1..]| && s[1..][j] == y;
            assert s[j + 1] == y;
          }
        }
      }
      assert forall j :: 0 < j < |[s[0]] + tail| ==> ([s[0]] + tail)[j] in tail;
      assert multiset([s[0]] + tail) == multiset{s[0]} + multiset(tail);
      [s[0]] + tail
  }

  /** Insertion sort by `key`: the same elements, in ascending order of their keys. */
  function SortBy<T>(s: seq<T>, key: T -> string): (r: seq<T>)
    ensures SortedBy(r, key)
    ensures multiset(r) == multiset(s)
    decreases |s|
  {
    if s == [] then []
    else
      assert s == [s[0]] + s[1..];
      Insert(s[0], SortBy(s[1..], key), key)
  }

  // ---------------------------------------------------------------------
  // Products
  // ---------------------------------------------------------------------

  /** Some row has this id. */
  predicate HasProductId(ps: seq<Product>, id: Guid) {
    exists p :: p in ps && p.id == id
  }

  /** No two rows share an id (the primary key). */
  ghost predicate UniqueProductIds(ps: seq<Product>) {
    forall i, j :: 0 <= i < |ps| && 0 <= j < |ps| && ps[i].id == ps[j].id ==> i == j
  }

  /** The rows whose name contains `name`, ignoring case, in table order. */
  function ProductsNamed(ps: seq<Product>, name: string): (r: seq<Product>)
    ensures forall p :: multiset(r)[p] == if ContainsIgnoreCase(p.name, name) then multiset(ps)[p] else 0
    decreases |ps|
  {
    if ps == [] then []
    else
      assert ps == [ps[0]] + ps[1..];
      if ContainsIgnoreCase(ps[0].name, name) then [ps[0]] + ProductsNamed(ps[1..], name)
      else ProductsNamed(ps[1..], name)
  }

  /** GetAllProducts: every row, ordered by name. */
  function AllByName(ps: seq<Product>): (r: seq<Product>)
    ensures SortedBy(r, ProductKey)
    ensures multiset(r) == multiset(ps)
  {
    SortBy(ps, ProductKey)
  }

  /** FindProductsByName: the rows whose name contains `name` ignoring case, ordered by name. */
  function ByName(ps: seq<Product>, name: string): (r: seq<Product>)
    ensures SortedBy(r, ProductKey)
    ensures forall p :: multiset(r)[p] == if ContainsIgnoreCase(p.name, name) then multiset(ps)[p] else 0
  {
    SortBy(ProductsNamed(ps, name), ProductKey)
  }

  /** A name search never returns more than listing everything does. */
  lemma ByNameWithinAll(ps: seq<Product>, name: string)
    ensures multiset(ByName(ps, name)) <= multiset(AllByName(ps))
  {
  }

  /** An empty search string selects every row: the same list as GetAllProducts. */
  lemma {:induction false} ByNameEmptyIsAll(ps: seq<Product>)
    ensures ByName(ps, "") == AllByName(ps)
  {
    EmptyNameKeepsAll(ps);
  }

  lemma {:induction false} EmptyNameKeepsAll(ps: seq<Product>)
    ensures ProductsNamed(ps, "") == ps
    decreases |ps|
  {
    if ps != [] {
      ContainsEmpty(ps[0].name);
      EmptyNameKeepsAll(ps[1..]);
    }
  }

  /** FindProductById: the first row with this id, if any. */
  function FindProduct(ps: seq<Product>, id: Guid): (r: Option<Product>)
    ensures r.Some? ==> r.value in ps && r.value.id == id
    ensures r.None? <==> !HasProductId(ps, id)
    decreases |ps|
  {
    if ps == [] then None
    else if ps[0].id == id then Some(ps[0])
    else
      assert forall p :: p in ps ==> p == ps[0] || p in ps[1..];
      FindProduct(ps[1..], id)
  }

  /** With unique ids the row a lookup finds is the one stored under that id. */
  lemma {:induction false} FindProductUnique(ps: seq<Product>, p: Product)
    requires UniqueProductIds(ps)
    requires p in ps
    ensures FindProduct(ps, p.id) == Some(p)
  {
    var q := FindProduct(ps, p.id).value;
    var i :| 0 <= i < |ps| && ps[i] == p;
    var j :| 0 <= j < |ps| && ps[j] == q;
  }

  // ---------------------------------------------------------------------
  // Options
  // ---------------------------------------------------------------------

  predicate HasOptionId(os: seq<ProductOption>, id: Guid) {
    exists o :: o in os && o.id == id
  }

  ghost predicate UniqueOptionIds(os: seq<ProductOption>) {
    forall i, j :: 0 <= i < |os| && 0 <= j < |os| && os[i].id == os[j].id ==> i == j
  }

  /** The rows owned by `productId`, in table order. */
  function OptionsOf(os: seq<ProductOption>, productId: Guid): (r: seq<ProductOption>)
    ensures forall o :: multiset(r)[o] == if o.productId == productId then multiset(os)[o] else 0
    decreases |os|
  {
    if os == [] then []
    else
      assert os == [os[0]] + os[1..];
      if os[0].productId == productId then [os[0]] + OptionsOf(os[1..], productId)
      else OptionsOf(os[1..], productId)
  }

  /** FindOptionsByProductId: the options owned by `productId`, ordered by name. */
  function OptionsByName(os: seq<ProductOption>, productId: Guid): (r: seq<ProductOption>)
    ensures SortedBy(r, OptionKey)
    ensures forall o :: multiset(r)[o] == if o.productId == productId then multiset(os)[o] else 0
  {
    SortBy(OptionsOf(os, productId), OptionKey)
  }

  /** FindOptionByProductIdAndOptionId: the first row with both ids, if any. */
  function FindOption(os: seq<ProductOption>, productId: Guid, optionId: Guid): (r: Option<ProductOption>)
    ensures r.Some? ==> r.value in os && r.value.productId == productId && r.value.id == optionId
    ensures r.None? <==> forall o :: o in os ==> !(o.productId == productId && o.id == optionId)
    decreases |os|
  {
    if os == [] then None
    else if os[0].productId == productId && os[0].id == optionId then Some(os[0])
    else
      assert forall o :: o in os ==> o == os[0] || o in os[1..];
      FindOption(os[1..], productId, optionId)
  }

  /** With unique option ids a stored option is found under its own pair of ids. */
  lemma {:induction false} FindOptionUnique(os: seq<ProductOption>, o: ProductOption)
    requires UniqueOptionIds(os)
    requires o in os
    ensures FindOption(os, o.productId, o.id) == Some(o)
  {
    var q := FindOption(os, o.productId, o.id).value;
    var i :| 0 <= i < |os| && os[i] == o;
    var j :| 0 <= j < |os| && os[j] == q;
  }

}
