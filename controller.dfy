/**
 * ProductsController: for each HTTP action, the fixed chain of guards (id
 * parsing, body presence, model validity, existence) followed by repository
 * calls, and the translation of the outcome into a response.
 */
module Controller {
  import opened Wrappers
  import opened Entities
  import opened Models
  import opened Text
  import opened Queries
  import opened Store
  import opened Mapping
  import opened Repository

  /** The body of a successful (200) response. */
  datatype Body =
    | ProductList(items: seq<ProductDto>)
    | SingleProduct(product: ProductDto)
    | OptionList(options: seq<ProductOptionDto>)
    | SingleOption(option: ProductOptionDto)

  /** The result of an action, by status code. */
  datatype Response =
    | BadRequest(message: Option<string>)  // 400, with a message or none
    | InvalidModel                         // 400 carrying the model's validation errors
    | NotFound(message: Option<string>)    // 404, with a message or none
    | Ok(body: Body)                       // 200
    | NoContent                            // 204
    | ServerError(diagnostic: string)      // 500 with a diagnostic

  const InvalidId := "Invalid Id provided."
  const InvalidOptionId := "Invalid optionId provided."
  const ProductNotFound := "Product not Found"
  const OptionNotFound := "Product Option not Found"

  /**
   * How GetProducts answers a lookup: 404 only when the repository hands back
   * no list at all; otherwise 200 with one item per product, even none.
   */
  function ProductsResponse(lookup: Option<seq<Product>>): (r: Response)
    ensures r.NotFound? <==> lookup.None?
    ensures r.NotFound? ==> r.message.None?
    ensures lookup.Some? ==> r == Ok(ProductList(ProductDtos(lookup.value)))
  {
    match lookup
    case None => NotFound(None)
    case Some(products) => Ok(ProductList(ProductDtos(products)))
  }

  // ---------------------------------------------------------------------
  // Diagnostics of a failed save: each carries the entities' identifying fields.
  // ---------------------------------------------------------------------

  /** A caption followed by a value: the text mentions the value. */
  function Labelled(caption: string, value: string): (m: string)
    ensures caption <= m
    ensures Mentions(m, value)
  {
    MentionsSplice(caption, value, "");
    assert caption + value + "" == caption + value;
    caption + value
  }

  /** "Error when saving new Product. Product.Name: <name>" */
  function SavingProductFailed(p: Product): (m: string)
    ensures "Error when saving new Product." <= m
    ensures Mentions(m, p.name)
  {
    Labelled("Error when saving new Product. Product.Name: ", p.name)
  }

  /** "Error when <subject>. Product.Id:<id> | Product.Name: <name>" */
  function ProductDiagnostic(subject: string, p: Product): (m: string)
    ensures "Error when " + subject <= m
    ensures Mentions(m, GuidText(p.id)) && Mentions(m, p.name)
  {
    var head := "Error when " + subject;
    var id := Labelled(". Product.Id:", GuidText(p.id));
    var name := Labelled(" | Product.Name: ", p.name);
    MentionsPrefix(id, name, GuidText(p.id));
    MentionsSuffix(id, name, p.name);
    MentionsSuffix(head, id + name, GuidText(p.id));
    MentionsSuffix(head, id + name, p.name);
    head + (id + name)
  }

  /** A product diagnostic followed by " | Product.OptionName:<name>". */
  function CreatingOptionFailed(p: Product, o: ProductOption): (m: string)
    ensures ProductDiagnostic("creating Product Option", p) <= m
    ensures Mentions(m, GuidText(p.id)) && Mentions(m, p.name) && Mentions(m, o.name)
  {
    var head := ProductDiagnostic("creating Product Option", p);
    var tail := Labelled(" | Product.OptionName:", o.name);
    MentionsPrefix(head, tail, GuidText(p.id));
    MentionsPrefix(head, tail, p.name);
    MentionsSuffix(head, tail, o.name);
    head + tail
  }

  /**
   * A product diagnostic followed by " | Product.OptionId:<id>" and
   * " | Product.OptionName:<name>".
   */
  function OptionDiagnostic(subject: string, p: Product, o: ProductOption): (m: string)
    ensures ProductDiagnostic(subject, p) <= m
    ensures Mentions(m, GuidText(p.id)) && Mentions(m, p.name)
    ensures Mentions(m, GuidText(o.id)) && Mentions(m, o.name)
  {
    var head := ProductDiagnostic(subject, p);
    var id := Labelled(" | Product.OptionId:", GuidText(o.id));
    var name := Labelled(" | Product.OptionName:", o.name);
    MentionsPrefix(id, name, GuidText(o.id));
    MentionsSuffix(id, name, o.name);
    MentionsPrefix(head, id + name, GuidText(p.id));
    MentionsPrefix(head, id + name, p.name);
    MentionsSuffix(head, id + name, GuidText(o.id));
    MentionsSuffix(head, id + name, o.name);
    head + (id + name)
  }

  /** Appending text keeps what a string mentions. */
  lemma {:induction false} MentionsPrefix(s: string, tail: string, t: string)
    requires Mentions(s, t)
    ensures Mentions(s + tail, t)
    decreases |s|
  {
    if t <= s {
      assert t <= s + tail;
    } else {
      MentionsPrefix(s[1..], tail, t);
      assert (s + tail)[1..] == s[1..] + tail;
    }
  }

  /** Prepending text keeps what a string mentions. */
  lemma {:induction false} MentionsSuffix(head: string, s: string, t: string)
    requires Mentions(s, t)
    ensures Mentions(head + s, t)
    decreases |head|
  {
    if head == [] {
      assert head + s == s;
    } else {
      MentionsSuffix(head[1..], s, t);
      assert (head + s)[1..] == head[1..] + s;
    }
  }

  class ProductsController {
    const repository: ProductRepository
    /** Guid.TryParse: the identifier a string denotes, if it is one. */
    const tryParse: string -> Option<Guid>

    constructor (repository: ProductRepository, tryParse: string -> Option<Guid>)
      ensures this.repository == repository && this.tryParse == tryParse
    {
      this.repository := repository;
      this.tryParse := tryParse;
    }

    /**
     * GET products?name=: an absent name lists everything, any present name
     * (even the empty one) searches by name.
     */
    method GetProducts(name: Option<string>) returns (r: Response)
      modifies repository`calls
      ensures name.None? ==> repository.calls == old(repository.calls) + [Call.GetAllProducts]
      ensures name.Some? ==> repository.calls == old(repository.calls) + [Call.FindProductsByName(name.value)]
      ensures name.None? ==> r == Ok(ProductList(ProductDtos(AllByName(repository.products))))
      ensures name.Some? ==> r == Ok(ProductList(ProductDtos(ByName(repository.products, name.value))))
      ensures !r.NotFound?
    {
      var products: Option<seq<Product>>;
      if name.None? {
        var all := repository.GetAllProducts();
        products := Some(all);
      } else {
        var found := repository.FindProductsByName(name.value);
        products := Some(found);
      }
      r := ProductsResponse(products);
    }

    /** GET products/{Id} */
    method FindProductsById(id: string) returns (r: Response)
      modifies repository`calls
      ensures tryParse(id).None? ==> r == BadRequest(Some(InvalidId)) && repository.calls == old(repository.calls)
      ensures tryParse(id).Some? ==>
                var g := tryParse(id).value;
                && repository.calls == old(repository.calls) + [Call.FindProductById(g)]
                && r == match FindProduct(repository.products, g)
                        case None => NotFound(None)
                        case Some(p) => Ok(SingleProduct(ToProductDto(p)))
      ensures r.Ok? ==> r.body.SingleProduct? && Some(r.body.product.id) == tryParse(id)
    {
      var parsed := tryParse(id);
      if parsed.None? {
        return BadRequest(Some(InvalidId));
      }
      var product := repository.FindProductById(parsed.value);
      if product.None? {
        return NotFound(None);
      }
      r := Ok(SingleProduct(ToProductDto(product.value)));
    }

    /** POST products: `newId` is the identifier Guid.NewGuid hands out. */
    method CreateProduct(payload: Option<ProductForCreationDto>, modelValid: bool, newId: Guid)
      returns (r: Response)
      requires repository.Valid()
      modifies repository
      ensures repository.Valid()
      ensures payload.None? ==> r == BadRequest(None) && unchanged(repository)
      ensures payload.Some? && !modelValid ==> r == InvalidModel && unchanged(repository)
      ensures payload.Some? && modelValid ==>
                var p := NewProduct(payload.value, newId);
                var a := Commit(old(repository.Contents()), old(repository.pending) + [Change.AddProduct(p)]);
                && repository.calls == old(repository.calls) + [Call.AddProduct(p), Call.Save]
                && repository.Contents() == a.tables && repository.pending == []
                && r == if a.rows > 0 then NoContent else ServerError(SavingProductFailed(p))
      ensures payload.Some? && modelValid && old(repository.pending) == [] &&
              !HasProductId(old(repository.products), newId) ==>
                var p := NewProduct(payload.value, newId);
                && r == NoContent
                && repository.products == old(repository.products) + [p]
                && repository.options == old(repository.options)
                && FindProduct(repository.products, newId) == Some(p)
    {
      if payload.None? {
        return BadRequest(None);
      }
      if !modelValid {
        return InvalidModel;
      }
      var product := NewProduct(payload.value, newId);
      ghost var before := repository.Contents();
      ghost var staged := repository.pending;
      repository.AddProduct(product);
      var saved := repository.Save();
      if staged == [] && !HasProductId(before.products, newId) {
        assert staged + [Change.AddProduct(product)] == [Change.AddProduct(product)];
        AddThenFind(before, product);
      }
      r := if saved then NoContent else ServerError(SavingProductFailed(product));
    }

    /** PUT products/{Id}: checks the id, then the body, then that the product exists. */
    method UpdateProduct(id: string, payload: Option<ProductForUpdateDto>) returns (r: Response)
      requires repository.Valid()
      modifies repository
      ensures repository.Valid()
      ensures tryParse(id).None? ==> r == BadRequest(Some(InvalidId)) && unchanged(repository)
      ensures tryParse(id).Some? && payload.None? ==> r == BadRequest(None) && unchanged(repository)
      ensures tryParse(id).Some? && payload.Some? &&
              FindProduct(old(repository.products), tryParse(id).value).None? ==>
                && r == NotFound(None)
                && repository.Contents() == old(repository.Contents())
                && repository.pending == old(repository.pending)
                && repository.calls == old(repository.calls) + [Call.FindProductById(tryParse(id).value)]
      ensures tryParse(id).Some? && payload.Some? &&
              FindProduct(old(repository.products), tryParse(id).value).Some? ==>
                var g := tryParse(id).value;
                var edited := UpdatedProduct(payload.value, FindProduct(old(repository.products), g).value);
                var a := Commit(old(repository.Contents()), old(repository.pending) + [Change.ModifyProduct(edited)]);
                && repository.calls == old(repository.calls) + [Call.FindProductById(g), Call.Save]
                && repository.Contents() == a.tables && repository.pending == []
                && r == if a.rows > 0 then NoContent else ServerError(ProductDiagnostic("updating Product", edited))
      ensures tryParse(id).Some? && payload.Some? && old(repository.pending) == [] &&
              FindProduct(old(repository.products), tryParse(id).value).Some? ==>
                var g := tryParse(id).value;
                var p := FindProduct(old(repository.products), g).value;
                var edited := UpdatedProduct(payload.value, p);
                && edited.id == g
                && FindProduct(repository.products, g) == Some(WrittenRow(p, edited))
                && repository.options == old(repository.options)
                && r == if SameValues(p, edited) then ServerError(ProductDiagnostic("updating Product", edited))
                        else NoContent
    {
      var parsed := tryParse(id);
      if parsed.None? {
        return BadRequest(Some(InvalidId));
      }
      if payload.None? {
        return BadRequest(None);
      }
      var product := repository.FindProductById(parsed.value);
      if product.None? {
        return NotFound(None);
      }
      r := SaveProductEdit(product.value, payload.value);
    }

    /** The end of UpdateProduct: copy the body onto the fetched product and save. */
    method SaveProductEdit(p: Product, payload: ProductForUpdateDto) returns (r: Response)
      requires repository.Valid()
      modifies repository
      ensures repository.Valid()
      ensures var edited := UpdatedProduct(payload, p);
              var a := Commit(old(repository.Contents()), old(repository.pending) + [Change.ModifyProduct(edited)]);
              && repository.calls == old(repository.calls) + [Call.Save]
              && repository.Contents() == a.tables && repository.pending == []
              && r == if a.rows > 0 then NoContent else ServerError(ProductDiagnostic("updating Product", edited))
      ensures old(repository.pending) == [] && p in old(repository.products) ==>
              var edited := UpdatedProduct(payload, p);
              && FindProduct(repository.products, p.id) == Some(WrittenRow(p, edited))
              && repository.options == old(repository.options)
              && r == if SameValues(p, edited) then ServerError(ProductDiagnostic("updating Product", edited))
                      else NoContent
    {
      var edited := UpdatedProduct(payload, p);
      ghost var before := repository.Contents();
      ghost var staged := repository.pending;
      repository.TrackProductEdit(edited);
      var saved := repository.Save();
      if staged == [] && p in before.products {
        assert staged + [Change.ModifyProduct(edited)] == [Change.ModifyProduct(edited)];
        FindProductUnique(before.products, p);
        ModifyThenFind(before, edited);
      }
      r := if saved then NoContent else ServerError(ProductDiagnostic("updating Product", edited));
    }

    /** DELETE products/{Id}: removes the product together with its options. */
    method DeleteProduct(id: string) returns (r: Response)
      requires repository.Valid()
      modifies repository
      ensures repository.Valid()
      ensures tryParse(id).None? ==> r == BadRequest(Some(InvalidId)) && unchanged(repository)
      ensures tryParse(id).Some? && FindProduct(old(repository.products), tryParse(id).value).None? ==>
                && r == NotFound(None)
                && repository.Contents() == old(repository.Contents())
                && repository.pending == old(repository.pending)
                && repository.calls == old(repository.calls) + [Call.FindProductById(tryParse(id).value)]
      ensures tryParse(id).Some? && FindProduct(old(repository.products), tryParse(id).value).Some? ==>
                var g := tryParse(id).value;
                var p := FindProduct(old(repository.products), g).value;
                var a := Commit(old(repository.Contents()),
                                old(repository.pending) + CascadeChanges(old(repository.options), p));
                && repository.calls == old(repository.calls) +
                                       [Call.FindProductById(g), Call.RemoveProduct(p), Call.Save]
                && repository.Contents() == a.tables && repository.pending == []
                && r == if a.rows > 0 then NoContent else ServerError(ProductDiagnostic("deleting Product", p))
      ensures tryParse(id).Some? && old(repository.pending) == [] &&
              HasProductId(old(repository.products), tryParse(id).value) ==>
                var g := tryParse(id).value;
                && r == NoContent
                && repository.products == WithoutProduct(old(repository.products), g)
                && repository.options == OptionsNotOf(old(repository.options), g)
                && !HasProductId(repository.products, g)
                && forall o :: o in repository.options ==> o.productId != g
    {
      var parsed := tryParse(id);
      if parsed.None? {
        return BadRequest(Some(InvalidId));
      }
      var product := repository.FindProductById(parsed.value);
      if product.None? {
        return NotFound(None);
      }
      r := SaveProductRemoval(product.value);
    }

    /** The end of DeleteProduct: stage the product with its options for removal and save. */
    method SaveProductRemoval(p: Product) returns (r: Response)
      requires repository.Valid()
      modifies repository
      ensures repository.Valid()
      ensures var a := Commit(old(repository.Contents()),
                              old(repository.pending) + CascadeChanges(old(repository.options), p));
              && repository.calls == old(repository.calls) + [Call.RemoveProduct(p), Call.Save]
              && repository.Contents() == a.tables && repository.pending == []
              && r == if a.rows > 0 then NoContent else ServerError(ProductDiagnostic("deleting Product", p))
      ensures old(repository.pending) == [] && p in old(repository.products) ==>
              && r == NoContent
              && repository.products == WithoutProduct(old(repository.products), p.id)
              && repository.options == OptionsNotOf(old(repository.options), p.id)
    {
      ghost var before := repository.Contents();
      ghost var staged := repository.pending;
      repository.RemoveProduct(p);
      var saved := repository.Save();
      if staged == [] {
        assert staged + CascadeChanges(before.options, p) == CascadeChanges(before.options, p);
        CascadeRemove(before, p);
      }
      r := if saved then NoContent else ServerError(ProductDiagnostic("deleting Product", p));
    }

    /** GET products/{Id}/options: the product must exist; its options in name order. */
    method FindOptionsByProductId(id: string) returns (r: Response)
      modifies repository`calls
      ensures tryParse(id).None? ==> r == BadRequest(Some(InvalidId)) && repository.calls == old(repository.calls)
      ensures tryParse(id).Some? && FindProduct(repository.products, tryParse(id).value).None? ==>
                && r == NotFound(None)
                && repository.calls == old(repository.calls) + [Call.FindProductById(tryParse(id).value)]
      ensures tryParse(id).Some? && FindProduct(repository.products, tryParse(id).value).Some? ==>
                var g := tryParse(id).value;
                && r == Ok(OptionList(OptionDtos(OptionsByName(repository.options, g))))
                && repository.calls == old(repository.calls) +
                                       [Call.FindProductById(g), Call.FindOptionsByProductId(g)]
    {
      var parsed := tryParse(id);
      if parsed.None? {
        return BadRequest(Some(InvalidId));
      }
      var product := repository.FindProductById(parsed.value);
      if product.None? {
        return NotFound(None);
      }
      var productOptions := repository.FindOptionsByProductId(parsed.value);
      r := Ok(OptionList(OptionDtos(productOptions)));
    }

    /**
     * GET products/{Id}/options/{optionId}, as written: the second parse reads
     * `id` again, so `optionId` is never looked at and the option is looked up
     * with the product id in both places.
     */
    method FindOptionByProductIdAndOptionId(id: string, optionId: string) returns (r: Response)
      modifies repository`calls
      ensures tryParse(id).None? ==> r == BadRequest(Some(InvalidId)) && repository.calls == old(repository.calls)
      ensures tryParse(id).Some? ==>
                var g := tryParse(id).value;
                && repository.calls == old(repository.calls) + [Call.FindOptionByProductIdAndOptionId(g, g)]
                && r == match FindOption(repository.options, g, g)
                        case None => NotFound(None)
                        case Some(o) => Ok(SingleOption(ToOptionDto(o)))
      ensures r != BadRequest(Some(InvalidOptionId))
      ensures tryParse(id).Some? && (forall o :: o in repository.options ==> o.id != o.productId) ==>
                r == NotFound(None)
    {
      var parsed := tryParse(id);
      if parsed.None? {
        return BadRequest(Some(InvalidId));
      }
      var parsedOption := tryParse(id);
      if parsedOption.None? {
        return BadRequest(Some(InvalidOptionId));
      }
      var productOption := repository.FindOptionByProductIdAndOptionId(parsed.value, parsedOption.value);
      if productOption.None? {
        return NotFound(None);
      }
      r := Ok(SingleOption(ToOptionDto(productOption.value)));
    }

    /** The same action with the second parse reading `optionId`. */
    method FindOptionByProductIdAndOptionIdCorrected(id: string, optionId: string) returns (r: Response)
      requires repository.Valid()
      modifies repository`calls
      ensures tryParse(id).None? ==> r == BadRequest(Some(InvalidId)) && repository.calls == old(repository.calls)
      ensures tryParse(id).Some? && tryParse(optionId).None? ==>
                r == BadRequest(Some(InvalidOptionId)) && repository.calls == old(repository.calls)
      ensures tryParse(id).Some? && tryParse(optionId).Some? ==>
                var g := tryParse(id).value;
                var og := tryParse(optionId).value;
                && repository.calls == old(repository.calls) + [Call.FindOptionByProductIdAndOptionId(g, og)]
                && r == match FindOption(repository.options, g, og)
                        case None => NotFound(None)
                        case Some(o) => Ok(SingleOption(ToOptionDto(o)))
      ensures forall o :: (o in repository.options && Some(o.productId) == tryParse(id) &&
                           Some(o.id) == tryParse(optionId)) ==> r == Ok(SingleOption(ToOptionDto(o)))
    {
      var parsed := tryParse(id);
      if parsed.None? {
        return BadRequest(Some(InvalidId));
      }
      var parsedOption := tryParse(optionId);
      if parsedOption.None? {
        return BadRequest(Some(InvalidOptionId));
      }
      var productOption := repository.FindOptionByProductIdAndOptionId(parsed.value, parsedOption.value);
      forall o | o in repository.options && o.productId == parsed.value && o.id == parsedOption.value
        ensures productOption == Some(o)
      {
        FindOptionUnique(repository.options, o);
      }
      if productOption.None? {
        return NotFound(None);
      }
      r := Ok(SingleOption(ToOptionDto(productOption.value)));
    }

    /** POST products/{Id}/options: `newId` is the identifier Guid.NewGuid hands out. */
    method CreateProductOption(id: string, payload: Option<ProductOptionForCreationDto>, modelValid: bool,
                               newId: Guid) returns (r: Response)
      requires repository.Valid()
      modifies repository
      ensures repository.Valid()
      ensures tryParse(id).None? ==> r == BadRequest(Some(InvalidId)) && unchanged(repository)
      ensures tryParse(id).Some? && payload.None? ==> r == BadRequest(None) && unchanged(repository)
      ensures tryParse(id).Some? && payload.Some? && !modelValid ==> r == InvalidModel && unchanged(repository)
      ensures tryParse(id).Some? && payload.Some? && modelValid &&
              FindProduct(old(repository.products), tryParse(id).value).None? ==>
                && r == NotFound(None)
                && repository.Contents() == old(repository.Contents())
                && repository.pending == old(repository.pending)
                && repository.calls == old(repository.calls) + [Call.FindProductById(tryParse(id).value)]
      ensures tryParse(id).Some? && payload.Some? && modelValid &&
              FindProduct(old(repository.products), tryParse(id).value).Some? ==>
                var g := tryParse(id).value;
                var p := FindProduct(old(repository.products), g).value;
                var o := NewOption(payload.value, newId, g);
                var a := Commit(old(repository.Contents()), old(repository.pending) + [Change.AddOption(o)]);
                && repository.calls == old(repository.calls) +
                                       [Call.FindProductById(g), Call.AddProductOption(o), Call.Save]
                && repository.Contents() == a.tables && repository.pending == []
                && r == if a.rows > 0 then NoContent else ServerError(CreatingOptionFailed(p, o))
      ensures tryParse(id).Some? && payload.Some? && modelValid && old(repository.pending) == [] &&
              HasProductId(old(repository.products), tryParse(id).value) &&
              !HasOptionId(old(repository.options), newId) ==>
                var o := NewOption(payload.value, newId, tryParse(id).value);
                && r == NoContent
                && repository.options == old(repository.options) + [o]
                && repository.products == old(repository.products)
                && FindOption(repository.options, tryParse(id).value, newId) == Some(o)
    {
      var parsed := tryParse(id);
      if parsed.None? {
        return BadRequest(Some(InvalidId));
      }
      if payload.None? {
        return BadRequest(None);
      }
      if !modelValid {
        return InvalidModel;
      }
      var product := repository.FindProductById(parsed.value);
      if product.None? {
        return NotFound(None);
      }
      r := SaveNewOption(product.value, NewOption(payload.value, newId, parsed.value));
    }

    /** The end of CreateProductOption: stage the new option and save. */
    method SaveNewOption(p: Product, o: ProductOption) returns (r: Response)
      requires repository.Valid()
      modifies repository
      ensures repository.Valid()
      ensures var a := Commit(old(repository.Contents()), old(repository.pending) + [Change.AddOption(o)]);
              && repository.calls == old(repository.calls) + [Call.AddProductOption(o), Call.Save]
              && repository.Contents() == a.tables && repository.pending == []
              && r == if a.rows > 0 then NoContent else ServerError(CreatingOptionFailed(p, o))
      ensures old(repository.pending) == [] && !HasOptionId(old(repository.options), o.id) ==>
              && r == NoContent
              && repository.options == old(repository.options) + [o]
              && repository.products == old(repository.products)
              && FindOption(repository.options, o.productId, o.id) == Some(o)
    {
      ghost var before := repository.Contents();
      ghost var staged := repository.pending;
      repository.AddProductOption(o);
      var saved := repository.Save();
      if staged == [] && !HasOptionId(before.options, o.id) {
        assert staged + [Change.AddOption(o)] == [Change.AddOption(o)];
        AddOptionThenFind(before, o);
      }
      r := if saved then NoContent else ServerError(CreatingOptionFailed(p, o));
    }

    /**
     * PUT products/{Id}/options/{optionId}: both ids, then the body, then the
     * product ("Product not Found") before the option ("Product Option not Found").
     */
    method UpdateProductOption(id: string, optionId: string, payload: Option<ProductOptionForUpdateDto>)
      returns (r: Response)
      requires repository.Valid()
      modifies repository
      ensures repository.Valid()
      ensures tryParse(id).None? ==> r == BadRequest(Some(InvalidId)) && unchanged(repository)
      ensures tryParse(id).Some? && tryParse(optionId).None? ==>
                r == BadRequest(Some(InvalidOptionId)) && unchanged(repository)
      ensures tryParse(id).Some? && tryParse(optionId).Some? && payload.None? ==>
                r == BadRequest(None) && unchanged(repository)
      ensures tryParse(id).Some? && tryParse(optionId).Some? && payload.Some? &&
              FindProduct(old(repository.products), tryParse(id).value).None? ==>
                && r == NotFound(Some(ProductNotFound))
                && repository.Contents() == old(repository.Contents())
                && repository.pending == old(repository.pending)
                && repository.calls == old(repository.calls) + [Call.FindProductById(tryParse(id).value)]
      ensures tryParse(id).Some? && tryParse(optionId).Some? && payload.Some? &&
              FindProduct(old(repository.products), tryParse(id).value).Some? &&
              FindOption(old(repository.options), tryParse(id).value, tryParse(optionId).value).None? ==>
                var g := tryParse(id).value;
                && r == NotFound(Some(OptionNotFound))
                && repository.Contents() == old(repository.Contents())
                && repository.pending == old(repository.pending)
                && repository.calls == old(repository.calls) +
                     [Call.FindProductById(g), Call.FindOptionByProductIdAndOptionId(g, tryParse(optionId).value)]
      ensures tryParse(id).Some? && tryParse(optionId).Some? && payload.Some? &&
              FindProduct(old(repository.products), tryParse(id).value).Some? &&
              FindOption(old(repository.options), tryParse(id).value, tryParse(optionId).value).Some? ==>
                var g := tryParse(id).value;
                var og := tryParse(optionId).value;
                var p := FindProduct(old(repository.products), g).value;
                var edited := UpdatedOption(payload.value, FindOption(old(repository.options), g, og).value);
                var a := Commit(old(repository.Contents()), old(repository.pending) + [Change.ModifyOption(edited)]);
                && repository.calls == old(repository.calls) +
                     [Call.FindProductById(g), Call.FindOptionByProductIdAndOptionId(g, og), Call.Save]
                && repository.Contents() == a.tables && repository.pending == []
                && r == if a.rows > 0 then NoContent else ServerError(OptionDiagnostic("updating Product Option", p, edited))
      ensures tryParse(id).Some? && tryParse(optionId).Some? && payload.Some? && old(repository.pending) == [] &&
              FindProduct(old(repository.products), tryParse(id).value).Some? &&
              FindOption(old(repository.options), tryParse(id).value, tryParse(optionId).value).Some? ==>
                var g := tryParse(id).value;
                var og := tryParse(optionId).value;
                var o := FindOption(old(repository.options), g, og).value;
                var edited := UpdatedOption(payload.value, o);
                && FindOption(repository.options, g, og) == Some(edited)
                && repository.products == old(repository.products)
                && (r == NoContent <==> edited != o)
    {
      var parsed := tryParse(id);
      if parsed.None? {
        return BadRequest(Some(InvalidId));
      }
      var parsedOption := tryParse(optionId);
      if parsedOption.None? {
        return BadRequest(Some(InvalidOptionId));
      }
      if payload.None? {
        return BadRequest(None);
      }
      var product := repository.FindProductById(parsed.value);
      if product.None? {
        return NotFound(Some(ProductNotFound));
      }
      var productOption := repository.FindOptionByProductIdAndOptionId(parsed.value, parsedOption.value);
      if productOption.None? {
        return NotFound(Some(OptionNotFound));
      }
      r := SaveOptionEdit(product.value, productOption.value, payload.value);
    }

    /** The end of UpdateProductOption: copy the body onto the fetched option and save. */
    method SaveOptionEdit(p: Product, o: ProductOption, payload: ProductOptionForUpdateDto) returns (r: Response)
      requires repository.Valid()
      modifies repository
      ensures repository.Valid()
      ensures var edited := UpdatedOption(payload, o);
              var a := Commit(old(repository.Contents()), old(repository.pending) + [Change.ModifyOption(edited)]);
              && repository.calls == old(repository.calls) + [Call.Save]
              && repository.Contents() == a.tables && repository.pending == []
              && r == if a.rows > 0 then NoContent else ServerError(OptionDiagnostic("updating Product Option", p, edited))
      ensures old(repository.pending) == [] && o in old(repository.options) ==>
              var edited := UpdatedOption(payload, o);
              && FindOption(repository.options, o.productId, o.id) == Some(edited)
              && repository.products == old(repository.products)
              && (r == NoContent <==> edited != o)
    {
      var edited := UpdatedOption(payload, o);
      ghost var before := repository.Contents();
      ghost var staged := repository.pending;
      repository.TrackOptionEdit(edited);
      var saved := repository.Save();
      if staged == [] && o in before.options {
        assert staged + [Change.ModifyOption(edited)] == [Change.ModifyOption(edited)];
        ModifyOptionThenFind(before, edited);
      }
      r := if saved then NoContent else ServerError(OptionDiagnostic("updating Product Option", p, edited));
    }

    /**
     * DELETE products/{Id}/options/{optionId}: both ids, then the product, then
     * the option, each with its own not-found message.
     */
    method DeleteProductOption(id: string, optionId: string) returns (r: Response)
      requires repository.Valid()
      modifies repository
      ensures repository.Valid()
      ensures tryParse(id).None? ==> r == BadRequest(Some(InvalidId)) && unchanged(repository)
      ensures tryParse(id).Some? && tryParse(optionId).None? ==>
                r == BadRequest(Some(InvalidOptionId)) && unchanged(repository)
      ensures tryParse(id).Some? && tryParse(optionId).Some? &&
              FindProduct(old(repository.products), tryParse(id).value).None? ==>
                && r == NotFound(Some(ProductNotFound))
                && repository.Contents() == old(repository.Contents())
                && repository.pending == old(repository.pending)
                && repository.calls == old(repository.calls) + [Call.FindProductById(tryParse(id).value)]
      ensures tryParse(id).Some? && tryParse(optionId).Some? &&
              FindProduct(old(repository.products), tryParse(id).value).Some? &&
              FindOption(old(repository.options), tryParse(id).value, tryParse(optionId).value).None? ==>
                var g := tryParse(id).value;
                && r == NotFound(Some(OptionNotFound))
                && repository.Contents() == old(repository.Contents())
                && repository.pending == old(repository.pending)
                && repository.calls == old(repository.calls) +
                     [Call.FindProductById(g), Call.FindOptionByProductIdAndOptionId(g, tryParse(optionId).value)]
      ensures tryParse(id).Some? && tryParse(optionId).Some? &&
              FindProduct(old(repository.products), tryParse(id).value).Some? &&
              FindOption(old(repository.options), tryParse(id).value, tryParse(optionId).value).Some? ==>
                var g := tryParse(id).value;
                var og := tryParse(optionId).value;
                var p := FindProduct(old(repository.products), g).value;
                var o := FindOption(old(repository.options), g, og).value;
                var a := Commit(old(repository.Contents()), old(repository.pending) + [Change.RemoveOption(o)]);
                && repository.calls == old(repository.calls) +
                     [Call.FindProductById(g), Call.FindOptionByProductIdAndOptionId(g, og),
                      Call.RemoveProductOption(o), Call.Save]
                && repository.Contents() == a.tables && repository.pending == []
                && r == if a.rows > 0 then NoContent else ServerError(OptionDiagnostic("deleting Product Option", p, o))
      ensures tryParse(id).Some? && tryParse(optionId).Some? && old(repository.pending) == [] &&
              FindProduct(old(repository.products), tryParse(id).value).Some? &&
              FindOption(old(repository.options), tryParse(id).value, tryParse(optionId).value).Some? ==>
                var og := tryParse(optionId).value;
                && r == NoContent
                && repository.options == WithoutOptionIds(old(repository.options), {og})
                && !HasOptionId(repository.options, og)
                && repository.products == old(repository.products)
    {
      var parsed := tryParse(id);
      if parsed.None? {
        return BadRequest(Some(InvalidId));
      }
      var parsedOption := tryParse(optionId);
      if parsedOption.None? {
        return BadRequest(Some(InvalidOptionId));
      }
      var product := repository.FindProductById(parsed.value);
      if product.None? {
        return NotFound(Some(ProductNotFound));
      }
      var productOption := repository.FindOptionByProductIdAndOptionId(parsed.value, parsedOption.value);
      if productOption.None? {
        return NotFound(Some(OptionNotFound));
      }
      r := SaveOptionRemoval(product.value, productOption.value);
    }

    /** The end of DeleteProductOption: stage the option for removal and save. */
    method SaveOptionRemoval(p: Product, o: ProductOption) returns (r: Response)
      requires repository.Valid()
      modifies repository
      ensures repository.Valid()
      ensures var a := Commit(old(repository.Contents()), old(repository.pending) + [Change.RemoveOption(o)]);
              && repository.calls == old(repository.calls) + [Call.RemoveProductOption(o), Call.Save]
              && repository.Contents() == a.tables && repository.pending == []
              && r == if a.rows > 0 then NoContent else ServerError(OptionDiagnostic("deleting Product Option", p, o))
      ensures old(repository.pending) == [] && o in old(repository.options) ==>
              && r == NoContent
              && repository.options == WithoutOptionIds(old(repository.options), {o.id})
              && !HasOptionId(repository.options, o.id)
              && repository.products == old(repository.products)
    {
      ghost var before := repository.Contents();
      ghost var staged := repository.pending;
      repository.RemoveProductOption(o);
      var saved := repository.Save();
      if staged == [] && o in before.options {
        assert staged + [Change.RemoveOption(o)] == [Change.RemoveOption(o)];
        RemoveOptionThenFind(before, o);
      }
      r := if saved then NoContent else ServerError(OptionDiagnostic("deleting Product Option", p, o));
    }
  }

}
