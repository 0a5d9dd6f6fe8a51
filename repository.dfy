/**
 * ProductRepository: queries over the stored tables, staging of additions and
 * removals (with the cascade from a product to its options), and Save.
 */
module Repository {
  import opened Wrappers
  import opened Entities
  import opened Queries
  import opened Store

  /** A call made through the repository's interface, as a test double records it. */
  datatype Call =
    | GetAllProducts
    | FindProductsByName(name: string)
    | FindProductById(id: Guid)
    | AddProduct(product: Product)
    | RemoveProduct(product: Product)
    | FindOptionsByProductId(productId: Guid)
    | FindOptionByProductIdAndOptionId(productId: Guid, optionId: Guid)
    | AddProductOption(option: ProductOption)
    | RemoveProductOption(option: ProductOption)
    | Save

  class ProductRepository {
    /** The stored Product rows. */
    var products: seq<Product>
    /** The stored ProductOption rows. */
    var options: seq<ProductOption>
    /** The change set of the underlying context: what Save will apply. */
    var pending: seq<Change>
    /** Every interface call made so far, in order. */
    ghost var calls: seq<Call>

    ghost predicate Valid()
      reads this
    {
      WellFormed(Tables(products, options))
    }

    function Contents(): Tables
      reads this
    {
      Tables(products, options)
    }

    constructor (stored: Tables)
      requires WellFormed(stored)
      ensures Valid()
      ensures Contents() == stored && pending == [] && calls == []
    {
      products, options := stored.products, stored.options;
      pending, calls := [], [];
    }

    method GetAllProducts() returns (r: seq<Product>)
      modifies this`calls
      ensures calls == old(calls) + [Call.GetAllProducts]
      ensures r == AllByName(products)
    {
      r := AllByName(products);
      calls := calls + [Call.GetAllProducts];
    }

    method FindProductsByName(name: string) returns (r: seq<Product>)
      modifies this`calls
      ensures calls == old(calls) + [Call.FindProductsByName(name)]
      ensures r == ByName(products, name)
    {
      r := ByName(products, name);
      calls := calls + [Call.FindProductsByName(name)];
    }

    method FindProductById(id: Guid) returns (r: Option<Product>)
      modifies this`calls
      ensures calls == old(calls) + [Call.FindProductById(id)]
      ensures r == FindProduct(products, id)
    {
      r := FindProduct(products, id);
      calls := calls + [Call.FindProductById(id)];
    }

    /** Stages the insertion of a product; the tables are untouched until Save. */
    method AddProduct(product: Product)
      modifies this`pending, this`calls
      ensures pending == old(pending) + [Change.AddProduct(product)]
      ensures calls == old(calls) + [Call.AddProduct(product)]
    {
      pending := pending + [Change.AddProduct(product)];
      calls := calls + [Call.AddProduct(product)];
    }

    /**
     * Stages the removal of every option the product owns (as FindOptionsByProductId
     * lists them), then the removal of the product; nothing is removed until Save.
     */
    method RemoveProduct(product: Product)
      modifies this`pending, this`calls
      ensures pending == old(pending) + CascadeChanges(options, product)
      ensures calls == old(calls) + [Call.RemoveProduct(product)]
    {
      var productOptions := OptionsByName(options, product.id);
      ghost var before := pending;
      pending := pending + Removals(productOptions);
      pending := pending + [Change.RemoveProduct(product)];
      assert pending == before + (Removals(productOptions) + [Change.RemoveProduct(product)]);
      calls := calls + [Call.RemoveProduct(product)];
    }

    method FindOptionsByProductId(productId: Guid) returns (r: seq<ProductOption>)
      modifies this`calls
      ensures calls == old(calls) + [Call.FindOptionsByProductId(productId)]
      ensures r == OptionsByName(options, productId)
    {
      r := OptionsByName(options, productId);
      calls := calls + [Call.FindOptionsByProductId(productId)];
    }

    method FindOptionByProductIdAndOptionId(productId: Guid, optionId: Guid) returns (r: Option<ProductOption>)
      modifies this`calls
      ensures calls == old(calls) + [Call.FindOptionByProductIdAndOptionId(productId, optionId)]
      ensures r == FindOption(options, productId, optionId)
    {
      r := FindOption(options, productId, optionId);
      calls := calls + [Call.FindOptionByProductIdAndOptionId(productId, optionId)];
    }

    method AddProductOption(option: ProductOption)
      modifies this`pending, this`calls
      ensures pending == old(pending) + [Change.AddOption(option)]
      ensures calls == old(calls) + [Call.AddProductOption(option)]
    {
      pending := pending + [Change.AddOption(option)];
      calls := calls + [Call.AddProductOption(option)];
    }

    method RemoveProductOption(option: ProductOption)
      modifies this`pending, this`calls
      ensures pending == old(pending) + [Change.RemoveOption(option)]
      ensures calls == old(calls) + [Call.RemoveProductOption(option)]
    {
      pending := pending + [Change.RemoveOption(option)];
      calls := calls + [Call.RemoveProductOption(option)];
    }

    /**
     * Not an interface call: stands for the context's change tracking noticing
     * that the caller overwrote the fields of a product it fetched.
     */
    method TrackProductEdit(product: Product)
      modifies this`pending
      ensures pending == old(pending) + [Change.ModifyProduct(product)]
    {
      pending := pending + [Change.ModifyProduct(product)];
    }

    /** The same for an option the caller fetched and overwrote. */
    method TrackOptionEdit(option: ProductOption)
      modifies this`pending
      ensures pending == old(pending) + [Change.ModifyOption(option)]
    {
      pending := pending + [Change.ModifyOption(option)];
    }

    /**
     * Applies the change set and empties it; answers whether at least one row
     * was written. With nothing staged it writes nothing and answers false.
     */
    method Save() returns (saved: bool)
      requires Valid()
      modifies this
      ensures Valid()
      ensures Contents() == Commit(old(Contents()), old(pending)).tables
      ensures saved == (Commit(old(Contents()), old(pending)).rows > 0)
      ensures old(pending) == [] ==> !saved && Contents() == old(Contents())
      ensures pending == [] && calls == old(calls) + [Call.Save]
    {
      var applied := Commit(Contents(), pending);
      products, options := applied.tables.products, applied.tables.options;
      pending := [];
      calls := calls + [Call.Save];
      saved := applied.rows > 0;
    }
  }

}
