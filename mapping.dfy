/**
 * The field mappings between request/response shapes and entities, written
 * out explicitly in place of the process-wide mapper configuration.
 */
module Mapping {
  import opened Entities
  import opened Models

  function ToProductDto(p: Product): ProductDto {
    ProductDto(p.id, p.name, p.description, p.price, p.deliveryPrice)
  }

  function ToOptionDto(o: ProductOption): ProductOptionDto {
    ProductOptionDto(o.id, o.productId, o.name, o.description)
  }

  /** The response items for a product list: one shape per product, in the same order. */
  function ProductDtos(ps: seq<Product>): (r: seq<ProductDto>)
    ensures |r| == |ps|
    ensures forall i :: 0 <= i < |ps| ==> r[i] == ToProductDto(ps[i])
    decreases |ps|
  {
    if ps == [] then [] else [ToProductDto(ps[0])] + ProductDtos(ps[1..])
  }

  /** The response items for an option list: one shape per option, in the same order. */
  function OptionDtos(os: seq<ProductOption>): (r: seq<ProductOptionDto>)
    ensures |r| == |os|
    ensures forall i :: 0 <= i < |os| ==> r[i] == ToOptionDto(os[i])
    decreases |os|
  {
    if os == [] then [] else [ToOptionDto(os[0])] + OptionDtos(os[1..])
  }

  /** The entity built from a creation body, keyed by the freshly generated `id`. */
  function NewProduct(dto: ProductForCreationDto, id: Guid): Product {
    Product(id, dto.name, dto.description, dto.price, dto.deliveryPrice)
  }

  /** A fetched entity after the update body is copied onto it. */
  function UpdatedProduct(dto: ProductForUpdateDto, p: Product): Product {
    p.(name := dto.name, description := dto.description, price := dto.price, deliveryPrice := dto.deliveryPrice)
  }

  /** The option built from a creation body, keyed by `id` and owned by `productId`. */
  function NewOption(dto: ProductOptionForCreationDto, id: Guid, productId: Guid): ProductOption {
    ProductOption(id, productId, dto.name, dto.description)
  }

  /** A fetched option after the update body is copied onto it. */
  function UpdatedOption(dto: ProductOptionForUpdateDto, o: ProductOption): ProductOption {
    o.(name := dto.name, description := dto.description)
  }

  /**
   * An update overwrites every field it carries and keeps only the key: the
   * result is the entity the same body would create under the old id.
   */
  lemma UpdateIsRecreate(dto: ProductForUpdateDto, p: Product)
    ensures UpdatedProduct(dto, p) ==
            NewProduct(ProductForCreationDto(dto.name, dto.description, dto.price, dto.deliveryPrice), p.id)
  {
  }

  /** An option update keeps the key and the owner and overwrites the rest. */
  lemma UpdateOptionIsRecreate(dto: ProductOptionForUpdateDto, o: ProductOption)
    ensures UpdatedOption(dto, o) ==
            NewOption(ProductOptionForCreationDto(dto.name, dto.description), o.id, o.productId)
  {
  }

}
