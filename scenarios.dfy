/**
 * Client-side sequences of actions against one controller, from a state with
 * nothing staged: what a later request observes after an earlier one.
 */
module Scenarios {
  import opened Wrappers
  import opened Entities
  import opened Models
  import opened Queries
  import opened Mapping
  import opened Controller

  /**
   * Create a product under a fresh id, then fetch it by that id: the fetched
   * shape carries the new id and exactly the four fields of the body.
   */
  method CreateThenFind(c: ProductsController, payload: ProductForCreationDto, newId: Guid, idText: string)
    returns (created: Response, found: Response)
    requires c.repository.Valid() && c.repository.pending == []
    requires !HasProductId(c.repository.products, newId)
    requires c.tryParse(idText) == Some(newId)
    modifies c.repository
    ensures created == NoContent
    ensures found == Ok(SingleProduct(ProductDto(newId, payload.name, payload.description,
                                                 payload.price, payload.deliveryPrice)))
  {
    created := c.CreateProduct(Some(payload), true, newId);
    found := c.FindProductsById(idText);
  }

  /**
   * Delete a stored product, then fetch it again: the delete succeeds, the
   * fetch answers 404, and no stored option is left pointing at the product.
   */
  method DeleteThenFind(c: ProductsController, idText: string) returns (deleted: Response, found: Response)
    requires c.repository.Valid() && c.repository.pending == []
    requires c.tryParse(idText).Some? && HasProductId(c.repository.products, c.tryParse(idText).value)
    modifies c.repository
    ensures deleted == NoContent
    ensures found == NotFound(None)
    ensures forall o :: o in c.repository.options ==> o.productId != c.tryParse(idText).value
  {
    deleted := c.DeleteProduct(idText);
    found := c.FindProductsById(idText);
  }

  /**
   * Update a stored product with a body that changes some value, then fetch
   * it: the fetched shape keeps the id, carries the body's name and
   * description, and prices equal to the body's as decimals.
   */
  method UpdateThenFind(c: ProductsController, idText: string, payload: ProductForUpdateDto)
    returns (updated: Response, found: Response)
    requires c.repository.Valid() && c.repository.pending == []
    requires c.tryParse(idText).Some?
    requires var p := FindProduct(c.repository.products, c.tryParse(idText).value);
             p.Some? && !SameValues(p.value, UpdatedProduct(payload, p.value))
    modifies c.repository
    ensures updated == NoContent
    ensures found.Ok? && found.body.SingleProduct?
    ensures var d := found.body.product;
            && d.id == c.tryParse(idText).value
            && d.name == payload.name && d.description == payload.description
            && SameAmount(d.price, payload.price) && SameAmount(d.deliveryPrice, payload.deliveryPrice)
  {
    updated := c.UpdateProduct(idText, Some(payload));
    found := c.FindProductsById(idText);
  }

  /**
   * Update a stored product with a body whose values it already holds (prices
   * equal as decimals, whatever their scale): nothing is written, so the update
   * answers 500, and a later fetch answers the product exactly as stored.
   */
  method ResendThenFind(c: ProductsController, idText: string, payload: ProductForUpdateDto)
    returns (updated: Response, found: Response)
    requires c.repository.Valid() && c.repository.pending == []
    requires c.tryParse(idText).Some?
    requires var p := FindProduct(c.repository.products, c.tryParse(idText).value);
             p.Some? && SameValues(p.value, UpdatedProduct(payload, p.value))
    modifies c.repository
    ensures var p := FindProduct(old(c.repository.products), c.tryParse(idText).value).value;
            && updated == ServerError(ProductDiagnostic("updating Product", UpdatedProduct(payload, p)))
            && found == Ok(SingleProduct(ToProductDto(p)))
  {
    updated := c.UpdateProduct(idText, Some(payload));
    found := c.FindProductsById(idText);
  }

  /**
   * The option lookup as written against the corrected one, for a stored
   * option whose id differs from every product id it could be confused with:
   * the action as written answers 404, the corrected one answers the option.
   */
  method OptionLookupDefect(c: ProductsController, idText: string, optionIdText: string, o: ProductOption)
    returns (asWritten: Response, corrected: Response)
    requires c.repository.Valid()
    requires o in c.repository.options
    requires c.tryParse(idText) == Some(o.productId) && c.tryParse(optionIdText) == Some(o.id)
    requires forall q :: q in c.repository.options ==> q.id != q.productId
    modifies c.repository`calls
    ensures asWritten == NotFound(None)
    ensures corrected == Ok(SingleOption(ToOptionDto(o)))
  {
    asWritten := c.FindOptionByProductIdAndOptionId(idText, optionIdText);
    corrected := c.FindOptionByProductIdAndOptionIdCorrected(idText, optionIdText);
  }
}
