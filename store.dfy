/**
 * The persistence store behind ProductRepository: the two tables, the change
 * set that Add/Remove calls stage, and the commit that SaveChanges performs,
 * counting the rows it writes.
 */
module Store {
  import opened Wrappers
  import opened Entities
  import opened Queries

  /** The stored rows of the Product and ProductOption tables. */
  datatype Tables = Tables(products: seq<Product>, options: seq<ProductOption>)

  /** Primary keys are unique in both tables. */
  ghost predicate WellFormed(t: Tables) {
    UniqueProductIds(t.products) && UniqueOptionIds(t.options)
  }

  /** One staged entry of the change set. */
  datatype Change =
    | AddProduct(product: Product)
    | ModifyProduct(product: Product)
    | RemoveProduct(product: Product)
    | AddOption(option: ProductOption)
    | ModifyOption(option: ProductOption)
    | RemoveOption(option: ProductOption)

  /** The tables after applying changes, and how many rows were written. */
  datatype Applied = Applied(tables: Tables, rows: nat)

  // ---------------------------------------------------------------------
  // Row edits
  // ---------------------------------------------------------------------

  /** The product rows without the one keyed `id`. */
  function WithoutProduct(ps: seq<Product>, id: Guid): (r: seq<Product>)
    ensures forall p :: p in r <==> p in ps && p.id != id
    ensures UniqueProductIds(ps) ==> UniqueProductIds(r)
    decreases |ps|
  {
    if ps == [] then []
    else
      assert forall p :: p in ps <==> p == ps[0] || p in ps[1..];
      var rest := WithoutProduct(ps[1..], id);
      if ps[0].id == id then rest
      else
        assert UniqueProductIds(ps) ==> forall p :: p in rest ==> p.id != ps[0].id by {
          if UniqueProductIds(ps) {
            forall p | p in rest ensures p.id != ps[0].id {
              var k :| 0 <= k < |ps[1..]| && ps[1..][k] == p;
              assert ps[k + 1] == p;
            }
          }
        }
        assert forall k :: 0 < k < |[ps[0]] + rest| ==> ([ps[0]] + rest)[k] in rest;
        [ps[0]] + rest
  }

  /** The product rows with the one keyed `p.id` overwritten by `p`. */
  function ReplaceProduct(ps: seq<Product>, p: Product): (r: seq<Product>)
    ensures |r| == |ps|
    ensures forall i :: 0 <= i < |ps| ==> r[i] == if ps[i].id == p.id then p else ps[i]
    decreases |ps|
  {
    if ps == [] then []
    else [if ps[0].id == p.id then p else ps[0]] + ReplaceProduct(ps[1..], p)
  }

  /** The option rows whose key is not in `ids`. */
  function WithoutOptionIds(os: seq<ProductOption>, ids: set<Guid>): (r: seq<ProductOption>)
    ensures forall o :: o in r <==> o in os && o.id !in ids
    ensures UniqueOptionIds(os) ==> UniqueOptionIds(r)
    decreases |os|
  {
    if os == [] then []
    else
      assert forall o :: o in os <==> o == os[0] || o in os[1..];
      var rest := WithoutOptionIds(os[1..], ids);
      if os[0].id in ids then rest
      else
        assert UniqueOptionIds(os) ==> forall o :: o in rest ==> o.id != os[0].id by {
          if UniqueOptionIds(os) {
            forall o | o in rest ensures o.id != os[0].id {
              var k :| 0 <= k < |os[1..]| && os[1..][k] == o;
              assert os[k + 1] == o;
            }
          }
        }
        assert forall k :: 0 < k < |[os[0]] + rest| ==> ([os[0]] + rest)[k] in rest;
        [os[0]] + rest
  }

  /** The option rows with the one keyed `o.id` overwritten by `o`. */
  function ReplaceOption(os: seq<ProductOption>, o: ProductOption): (r: seq<ProductOption>)
    ensures |r| == |os|
    ensures forall i :: 0 <= i < |os| ==> r[i] == if os[i].id == o.id then o else os[i]
    decreases |os|
  {
    if os == [] then []
    else [if os[0].id == o.id then o else os[0]] + ReplaceOption(os[1..], o)
  }

  /** The option rows not owned by `productId`, in table order. */
  function OptionsNotOf(os: seq<ProductOption>, productId: Guid): (r: seq<ProductOption>)
    ensures forall o :: o in r <==> o in os && o.productId != productId
    decreases |os|
  {
    if os == [] then []
    else
      assert forall o :: o in os <==> o == os[0] || o in os[1..];
      if os[0].productId == productId then OptionsNotOf(os[1..], productId)
      else [os[0]] + OptionsNotOf(os[1..], productId)
  }

  // ---------------------------------------------------------------------
  // Commit (SaveChanges)
  // ---------------------------------------------------------------------

  /**
   * The row a save leaves when the tracked row `stored` was overwritten with
   * `edited`: only properties whose value changed are written, so a price that
   * compares equal to the stored one keeps its stored representation.
   */
  function WrittenRow(stored: Product, edited: Product): (r: Product)
    ensures SameValues(r, edited)
    ensures SameValues(stored, edited) ==> r == stored
    ensures r.id == edited.id && r.name == edited.name && r.description == edited.description
  {
    edited.(price := if SameAmount(stored.price, edited.price) then stored.price else edited.price,
            deliveryPrice := if SameAmount(stored.deliveryPrice, edited.deliveryPrice)
                             then stored.deliveryPrice else edited.deliveryPrice)
  }

  /**
   * One change applied to the tables. A change that writes nothing counts no
   * row: adding a key that is already stored, modifying a row that is absent
   * or already holds the same values (prices compared as decimals), removing
   * a row that is absent.
   */
  function ApplyChange(t: Tables, c: Change): (a: Applied)
    ensures a.rows <= 1
    ensures WellFormed(t) ==> WellFormed(a.tables)
  {
    match c
    case AddProduct(p) =>
      if HasProductId(t.products, p.id) then Applied(t, 0)
      else
        assert forall i :: 0 <= i < |t.products| ==> t.products[i] in t.products;
        Applied(t.(products := t.products + [p]), 1)
    case ModifyProduct(p) =>
      (match FindProduct(t.products, p.id)
       case None => Applied(t, 0)
       case Some(q) =>
         if SameValues(q, p) then Applied(t, 0)
         else Applied(t.(products := ReplaceProduct(t.products, WrittenRow(q, p))), 1))
    case RemoveProduct(p) =>
      if HasProductId(t.products, p.id) then Applied(t.(products := WithoutProduct(t.products, p.id)), 1)
      else Applied(t, 0)
    case AddOption(o) =>
      if HasOptionId(t.options, o.id) then Applied(t, 0)
      else
        assert forall i :: 0 <= i < |t.options| ==> t.options[i] in t.options;
        Applied(t.(options := t.options + [o]), 1)
    case ModifyOption(o) =>
      if !HasOptionId(t.options, o.id) || o in t.options then Applied(t, 0)
      else Applied(t.(options := ReplaceOption(t.options, o)), 1)
    case RemoveOption(o) =>
      if HasOptionId(t.options, o.id) then Applied(t.(options := WithoutOptionIds(t.options, {o.id})), 1)
      else Applied(t, 0)
  }

  /** All staged changes applied in order, with the total number of rows written. */
  function Commit(t: Tables, cs: seq<Change>): (a: Applied)
    ensures a.rows <= |cs|
    ensures WellFormed(t) ==> WellFormed(a.tables)
    decreases |cs|
  {
    if cs == [] then Applied(t, 0)
    else
      var first := ApplyChange(t, cs[0]);
      var rest := Commit(first.tables, cs[1..]);
      Applied(rest.tables, first.rows + rest.rows)
  }

  /** Committing two batches one after the other is committing them together. */
  lemma {:induction false} CommitAppend(t: Tables, xs: seq<Change>, ys: seq<Change>)
    ensures Commit(t, xs + ys) ==
            var a := Commit(t, xs);
            var b := Commit(a.tables, ys);
            Applied(b.tables, a.rows + b.rows)
    decreases |xs|
  {
    if xs != [] {
      assert (xs + ys)[0] == xs[0] && (xs + ys)[1..] == xs[1..] + ys;
      CommitAppend(ApplyChange(t, xs[0]).tables, xs[1..], ys);
    } else {
      assert xs + ys == ys;
    }
  }

  lemma CommitOne(t: Tables, c: Change)
    ensures Commit(t, [c]) == ApplyChange(t, c)
  {
  }

  // ---------------------------------------------------------------------
  // Cascading delete
  // ---------------------------------------------------------------------

  /** The removal entries RemoveRange stages for a list of options. */
  function Removals(os: seq<ProductOption>): seq<Change>
    decreases |os|
  {
    if os == [] then [] else [Change.RemoveOption(os[0])] + Removals(os[1..])
  }

  /**
   * What ProductRepository.RemoveProduct stages: removal of every option the
   * product owns, in name order, then removal of the product.
   */
  function CascadeChanges(os: seq<ProductOption>, p: Product): seq<Change> {
    Removals(OptionsByName(os, p.id)) + [Change.RemoveProduct(p)]
  }

  function IdsOf(os: seq<ProductOption>): set<Guid> {
    set o | o in os :: o.id
  }

  lemma {:induction false} WithoutOptionIdsTwice(os: seq<ProductOption>, a: set<Guid>, b: set<Guid>)
    ensures WithoutOptionIds(WithoutOptionIds(os, a), b) == WithoutOptionIds(os, a + b)
    decreases |os|
  {
    if os != [] {
      WithoutOptionIdsTwice(os[1..], a, b);
    }
  }

  lemma {:induction false} WithoutAbsentOptionId(os: seq<ProductOption>, id: Guid)
    requires !HasOptionId(os, id)
    ensures WithoutOptionIds(os, {id}) == os
    decreases |os|
  {
    if os != [] {
      assert os[0] in os;
      assert forall o :: o in os[1..] ==> o in os;
      WithoutAbsentOptionId(os[1..], id);
    }
  }

  lemma {:induction false} WithoutAbsentProduct(ps: seq<Product>, id: Guid)
    requires !HasProductId(ps, id)
    ensures WithoutProduct(ps, id) == ps
    decreases |ps|
  {
    if ps != [] {
      assert ps[0] in ps;
      assert forall p :: p in ps[1..] ==> p in ps;
      WithoutAbsentProduct(ps[1..], id);
    }
  }

  /**
   * Committing the removals of a list of options deletes exactly the rows
   * keyed by their ids, and writes a row exactly when one of them is stored.
   */
  lemma {:induction false} CommitRemovals(t: Tables, ls: seq<ProductOption>)
    ensures Commit(t, Removals(ls)).tables == t.(options := WithoutOptionIds(t.options, IdsOf(ls)))
    ensures Commit(t, Removals(ls)).rows > 0 <==> exists l :: l in ls && HasOptionId(t.options, l.id)
    decreases |ls|
  {
    if ls == [] {
      assert IdsOf(ls) == {};
      EmptyIdsKeepAll(t.options);
    } else {
      var l := ls[0];
      var first := ApplyChange(t, Change.RemoveOption(l));
      ApplyRemoval(t, l);
      assert Removals(ls)[0] == Change.RemoveOption(l) && Removals(ls)[1..] == Removals(ls[1..]);
      CommitRemovals(first.tables, ls[1..]);
      assert IdsOf(ls) == {l.id} + IdsOf(ls[1..]) by {
        assert forall o :: o in ls <==> o == l || o in ls[1..];
      }
      WithoutOptionIdsTwice(t.options, {l.id}, IdsOf(ls[1..]));
      assert forall o :: o in ls <==> o == l || o in ls[1..];
      if !HasOptionId(t.options, l.id) {
        WithoutAbsentOptionId(t.options, l.id);
      }
    }
  }

  /** Removing one option deletes the rows keyed by its id, one row if any is stored. */
  lemma ApplyRemoval(t: Tables, l: ProductOption)
    ensures var a := ApplyChange(t, Change.RemoveOption(l));
            && (HasOptionId(t.options, l.id) ==> a == Applied(t.(options := WithoutOptionIds(t.options, {l.id})), 1))
            && (!HasOptionId(t.options, l.id) ==> a == Applied(t, 0))
  {
  }

  lemma {:induction false} EmptyIdsKeepAll(os: seq<ProductOption>)
    ensures WithoutOptionIds(os, {}) == os
    decreases |os|
  {
    if os != [] {
      EmptyIdsKeepAll(os[1..]);
    }
  }

  lemma {:induction false} WithoutIdsIsNotOf(os: seq<ProductOption>, ids: set<Guid>, productId: Guid)
    requires forall o :: o in os ==> (o.id in ids <==> o.productId == productId)
    ensures WithoutOptionIds(os, ids) == OptionsNotOf(os, productId)
    decreases |os|
  {
    if os != [] {
      assert os[0] in os;
      assert forall o :: o in os[1..] ==> o in os;
      WithoutIdsIsNotOf(os[1..], ids, productId);
    }
  }

  /**
   * Removing a product and then saving, from a state with nothing else staged:
   * the product row and every option it owns are gone, all other rows stay as
   * they were and in the same order, and the save reports success exactly when
   * the product or one of its options was stored.
   */
  lemma CascadeRemove(t: Tables, p: Product)
    requires WellFormed(t)
    ensures var a := Commit(t, CascadeChanges(t.options, p));
            && a.tables.products == WithoutProduct(t.products, p.id)
            && a.tables.options == OptionsNotOf(t.options, p.id)
            && (a.rows > 0 <==> HasProductId(t.products, p.id) ||
                                exists o :: o in t.options && o.productId == p.id)
  {
    var ls := OptionsByName(t.options, p.id);
    var a := Commit(t, Removals(ls));
    var b := Commit(a.tables, [Change.RemoveProduct(p)]);
    CommitAppend(t, Removals(ls), [Change.RemoveProduct(p)]);
    assert Commit(t, CascadeChanges(t.options, p)) == Applied(b.tables, a.rows + b.rows);
    CascadeOptions(t, p.id);
    RemoveProductRow(a.tables, p);
  }

  /** The first part of the cascade: the removals of the product's options. */
  lemma CascadeOptions(t: Tables, productId: Guid)
    requires WellFormed(t)
    ensures var a := Commit(t, Removals(OptionsByName(t.options, productId)));
            && a.tables == Tables(t.products, OptionsNotOf(t.options, productId))
            && (a.rows > 0 <==> exists o :: o in t.options && o.productId == productId)
  {
    var ls := OptionsByName(t.options, productId);
    CommitRemovals(t, ls);
    OwnedIds(t.options, productId);
    WithoutIdsIsNotOf(t.options, IdsOf(ls), productId);
    OwnedStored(t.options, productId);
  }

  /** The last part of the cascade: the product row itself, if it is stored. */
  lemma RemoveProductRow(t: Tables, p: Product)
    ensures var b := Commit(t, [Change.RemoveProduct(p)]);
            && b.tables == t.(products := WithoutProduct(t.products, p.id))
            && (b.rows > 0 <==> HasProductId(t.products, p.id))
  {
    CommitOne(t, Change.RemoveProduct(p));
    if !HasProductId(t.products, p.id) {
      WithoutAbsentProduct(t.products, p.id);
    }
  }

  /** Among stored options, the ids of a product's options are the ids of the rows it owns. */
  lemma OwnedIds(os: seq<ProductOption>, productId: Guid)
    requires UniqueOptionIds(os)
    ensures forall o :: o in os ==> (o.id in IdsOf(OptionsByName(os, productId)) <==> o.productId == productId)
  {
    var ls := OptionsByName(os, productId);
    forall o | o in os ensures o.id in IdsOf(ls) <==> o.productId == productId {
      if o.productId == productId {
        assert multiset(os)[o] > 0;
        assert o in ls;
      }
      if o.id in IdsOf(ls) {
        var l :| l in ls && l.id == o.id;
        assert multiset(ls)[l] > 0;
        assert l in os;
        var i :| 0 <= i < |os| && os[i] == o;
        var j :| 0 <= j < |os| && os[j] == l;
      }
    }
  }

  /** A product's listed options are stored, and it has one exactly when the list is non-empty. */
  lemma OwnedStored(os: seq<ProductOption>, productId: Guid)
    ensures (exists l :: l in OptionsByName(os, productId) && HasOptionId(os, l.id)) <==>
            (exists o :: o in os && o.productId == productId)
  {
    var ls := OptionsByName(os, productId);
    if o :| o in os && o.productId == productId {
      assert multiset(os)[o] > 0;
      assert o in ls && HasOptionId(os, o.id);
    }
    if l :| l in ls && HasOptionId(os, l.id) {
      assert multiset(ls)[l] > 0;
      assert l in os && l.productId == productId;
    }
  }

  // ---------------------------------------------------------------------
  // Single-change commits used by the controller's actions
  // ---------------------------------------------------------------------

  /** A freshly keyed product is stored by one row write and found under its id. */
  lemma AddThenFind(t: Tables, p: Product)
    requires !HasProductId(t.products, p.id)
    ensures var a := Commit(t, [Change.AddProduct(p)]);
            && a == Applied(t.(products := t.products + [p]), 1)
            && FindProduct(a.tables.products, p.id) == Some(p)
  {
    var q := FindProduct(t.products + [p], p.id).value;
    assert q in t.products + [p];
  }

  /** A freshly keyed option is stored by one row write and found under its pair of ids. */
  lemma AddOptionThenFind(t: Tables, o: ProductOption)
    requires !HasOptionId(t.options, o.id)
    ensures var a := Commit(t, [Change.AddOption(o)]);
            && a == Applied(t.(options := t.options + [o]), 1)
            && FindOption(a.tables.options, o.productId, o.id) == Some(o)
  {
    var q := FindOption(t.options + [o], o.productId, o.id).value;
    assert q in t.options + [o];
  }

  /**
   * Modifying a stored product writes one row exactly when some value differs
   * from the stored one (prices compared as decimals); afterwards the lookup by
   * its id answers the written row, which holds the new values.
   */
  lemma ModifyThenFind(t: Tables, p: Product)
    requires WellFormed(t)
    requires HasProductId(t.products, p.id)
    ensures var a := Commit(t, [Change.ModifyProduct(p)]);
            var q := FindProduct(t.products, p.id).value;
            && (a.rows == 1 <==> !SameValues(q, p))
            && FindProduct(a.tables.products, p.id) == Some(WrittenRow(q, p))
            && a.tables.options == t.options
  {
    CommitOne(t, Change.ModifyProduct(p));
    var a := Commit(t, [Change.ModifyProduct(p)]);
    var q := FindProduct(t.products, p.id).value;
    var w := WrittenRow(q, p);
    if !SameValues(q, p) {
      var i :| 0 <= i < |t.products| && t.products[i] == q;
      assert a.tables.products[i] == w;
      FindProductUnique(a.tables.products, w);
    }
  }

  /** The same for options, under their pair of ids. */
  lemma ModifyOptionThenFind(t: Tables, o: ProductOption)
    requires WellFormed(t)
    requires exists q :: q in t.options && q.id == o.id && q.productId == o.productId
    ensures var a := Commit(t, [Change.ModifyOption(o)]);
            && (a.rows == 1 <==> o !in t.options)
            && FindOption(a.tables.options, o.productId, o.id) == Some(o)
            && a.tables.products == t.products
  {
    CommitOne(t, Change.ModifyOption(o));
    var a := Commit(t, [Change.ModifyOption(o)]);
    if o !in t.options {
      var q :| q in t.options && q.id == o.id && q.productId == o.productId;
      var i :| 0 <= i < |t.options| && t.options[i] == q;
      assert a.tables.options[i] == o;
    }
    FindOptionUnique(a.tables.options, o);
  }

  /** Removing a stored option writes one row and leaves nothing under its id. */
  lemma RemoveOptionThenFind(t: Tables, o: ProductOption)
    requires o in t.options
    ensures var a := Commit(t, [Change.RemoveOption(o)]);
            && a == Applied(t.(options := WithoutOptionIds(t.options, {o.id})), 1)
            && !HasOptionId(a.tables.options, o.id)
  {
    CommitOne(t, Change.RemoveOption(o));
  }

}
