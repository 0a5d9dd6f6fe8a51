# ProductAPI (RefactorThis) — a verified model of the repository and the controller

The product service is a small CRUD web API over two tables, `Product` and
`ProductOption`. An option belongs to a product through its `ProductId`.
This project models the two places where the service makes decisions:

- **`ProductRepository`** (module `Repository`, with `Queries` and `Store`).
  It is a class holding the stored rows (`products`, `options`) and the
  pending change set of the persistence context (`pending`).
  - Its queries are functions of the stored rows. Products are ordered by
    name. The name search is case-insensitive. Lookups go by id, or by
    product id and option id together.
  - `AddProduct`, `AddProductOption`, `RemoveProduct` and
    `RemoveProductOption` only stage changes.
  - `RemoveProduct` stages the removal of every option the product owns,
    then the removal of the product itself.
  - `Save` applies the staged changes in order (`Store.Commit`). It answers
    whether at least one row was written.
  - A ghost log, `calls`, records every interface call. This lets contracts
    say "no repository call is made" or "FindProductsByName is never called",
    as the controller's unit tests check with their test double.
- **`ProductsController`** (module `Controller`). It has the ten HTTP actions
  as methods returning a `Response`: `BadRequest`, `InvalidModel`,
  `NotFound`, `Ok`, `NoContent` or `ServerError`.
  - Each action runs the source's fixed chain of guards: parse the id(s),
    check that a body is present, check model validity, check that the
    entity exists. It then stages a change or copies fields, saves, and turns
    the save result into 204 or 500.
  - Every exit states its response, the repository calls made and, for
    mutating actions, the new stored state as `Commit` of the old state and
    the staged changes.
  - From a state with nothing staged, each mutating action also states its
    plain outcome. Create makes the new row findable. Update writes a row only when some value
    differs from the stored one, prices compared as decimals (10.00 equals 10),
    and the lookup then answers the edited values. Delete removes the product and all its
    options and keeps every other row.
- **`Mapping`** writes out the field copies that the process-wide
  AutoMapper configuration performs (`RefactorThis.API/Startup.cs:51-60`).
- **`Scenarios`** holds client sequences: create then get, update then get, a
  resent update then get, delete then get, and the option lookup as written against the corrected one.

Things that cannot be computed here are inputs:
- `Guid.TryParse` is the controller's function field `tryParse`.
- `Guid.NewGuid()` is the `newId` parameter.
- `ModelState.IsValid` is the `modelValid` parameter.

## Model

| member | source | states |
|---|---|---|
| Text.NameLeTotal | RefactorThis.API/Services/ProductRepository.cs:20 | the name order used by OrderBy relates every pair of names one way or the other |
| Text.NameLeTransitive | RefactorThis.API/Services/ProductRepository.cs:20 | the name order is transitive |
| Text.NameLeAntisymmetric | RefactorThis.API/Services/ProductRepository.cs:20 | two names ordered both ways are equal, so the order is total on names |
| Text.ContainsIgnoreCaseAt | RefactorThis.API/Services/ProductRepository.cs:25 | the case-insensitive containment test holds exactly when the search text matches, ignoring case, at some position of the name |
| Text.MentionsSplice | RefactorThis.API/Controllers/ProductsController.cs:100 | a text built as prefix + value + suffix contains the value |
| Entities.SameAmountEquivalence | RefactorThis.API/Entities/Product.cs:11-12 | decimal equality on prices is reflexive, symmetric and transitive |
| Entities.SameAmountRescaled | RefactorThis.API/Entities/Product.cs:11-12 | a price written with extra trailing zeros (10.00 against 10) compares equal to the original |
| Text.HexDigit | RefactorThis.API/Controllers/ProductsController.cs:133 | each digit value is rendered as the hexadecimal character that reads back as that value |
| Text.HexDigitsRoundTrip | RefactorThis.API/Controllers/ProductsController.cs:133 | a number below 16^count is read back exactly from its count hexadecimal digits |
| Text.GuidText | RefactorThis.API/Controllers/ProductsController.cs:133 | an id renders as 36 characters: its 32 hexadecimal digits, most significant first, in the 8-4-4-4-12 grouping with hyphens between the groups |
| Text.GuidTextInjective | RefactorThis.API/Controllers/ProductsController.cs:133 | two ids with the same rendering are the same id |
| Queries.SortBy | RefactorThis.API/Services/ProductRepository.cs:20 | ordering by a name key yields a list sorted by that key that is a permutation of the input |
| Queries.Insert | RefactorThis.API/Services/ProductRepository.cs:20 | placing one element into a sorted list keeps it sorted and adds exactly that element |
| Queries.ProductsNamed | RefactorThis.API/Services/ProductRepository.cs:25 | the filter keeps each product exactly as often as it is stored if its name contains the search text ignoring case, and drops it otherwise |
| Queries.AllByName | RefactorThis.API/Services/ProductRepository.cs:20 | GetAllProducts yields every stored product, as a permutation sorted ascending by name |
| Queries.ByName | RefactorThis.API/Services/ProductRepository.cs:25 | FindProductsByName yields exactly the stored products whose name contains the text ignoring case, sorted by name |
| Queries.ByNameWithinAll | RefactorThis.API/Services/ProductRepository.cs:20-25 | a name search yields a sub-multiset of GetAllProducts |
| Queries.ByNameEmptyIsAll | RefactorThis.API/Services/ProductRepository.cs:25 | searching for the empty name yields the same list as GetAllProducts |
| Queries.EmptyNameKeepsAll | RefactorThis.API/Services/ProductRepository.cs:25 | every name contains the empty text, so the filter keeps every row in order |
| Queries.FindProduct | RefactorThis.API/Services/ProductRepository.cs:30 | a found product is stored and has the requested id; nothing is found exactly when no stored product has that id |
| Queries.FindProductUnique | RefactorThis.API/Services/ProductRepository.cs:30 | with unique ids, looking up a stored product's id yields that product |
| Queries.OptionsOf | RefactorThis.API/Services/ProductRepository.cs:50 | the filter keeps each option exactly as often as it is stored if it belongs to the product, and drops it otherwise |
| Queries.OptionsByName | RefactorThis.API/Services/ProductRepository.cs:50 | FindOptionsByProductId yields exactly the product's options, sorted by name |
| Queries.FindOption | RefactorThis.API/Services/ProductRepository.cs:55 | a found option is stored and carries both requested ids, so it never belongs to another product; nothing is found exactly when no stored option has both ids |
| Queries.FindOptionUnique | RefactorThis.API/Services/ProductRepository.cs:55 | with unique option ids, a stored option is found under its own pair of ids |
| Store.WithoutProduct | RefactorThis.API/Services/ProductRepository.cs:45 | removing a product row keeps exactly the rows with another id, and keeps ids unique |
| Store.ReplaceProduct | RefactorThis.API/Controllers/ProductsController.cs:128-130 | writing an edited product replaces the row with its id in place and leaves every other row as it was |
| Store.WithoutOptionIds | RefactorThis.API/Services/ProductRepository.cs:42 | removing option rows keeps exactly the rows whose id is not removed, and keeps ids unique |
| Store.ReplaceOption | RefactorThis.API/Controllers/ProductsController.cs:298-300 | writing an edited option replaces the row with its id in place and leaves every other row as it was |
| Store.OptionsNotOf | RefactorThis.API/Services/ProductRepository.cs:38-46 | keeps exactly the options owned by another product |
| Store.WrittenRow | RefactorThis.API/Controllers/ProductsController.cs:128-130 | the row a save leaves after an edit holds the edited values (prices equal as decimals), and is the stored row itself when no value changed |
| Store.ApplyChange | RefactorThis.API/Services/ProductRepository.cs:68-71 | applying one staged change writes at most one row and keeps ids unique |
| Store.Commit | RefactorThis.API/Services/ProductRepository.cs:68-71 | applying a change set writes at most one row per change and keeps ids unique |
| Store.CommitAppend | RefactorThis.API/Services/ProductRepository.cs:68-71 | committing two change sets in sequence equals committing one after the other, with the row counts added |
| Store.CommitRemovals | RefactorThis.API/Services/ProductRepository.cs:42 | removing a list of options removes exactly their ids and writes rows exactly when one of them is stored |
| Store.CascadeRemove | RefactorThis.API/Services/ProductRepository.cs:38-46 | after the cascade is saved, the product is gone, no option of it remains, every other row stays, and the save succeeds exactly when the product or one of its options was stored |
| Store.CascadeOptions | RefactorThis.API/Services/ProductRepository.cs:41-42 | removing a product's listed options leaves exactly the other products' options and writes rows exactly when the product owned one |
| Store.RemoveProductRow | RefactorThis.API/Services/ProductRepository.cs:45 | removing the product row removes its id and writes a row exactly when it was stored |
| Store.AddThenFind | RefactorThis.API/Services/ProductRepository.cs:33-36 | saving a product added under a fresh id appends it, writes one row and makes it findable by id |
| Store.AddOptionThenFind | RefactorThis.API/Services/ProductRepository.cs:58-61 | saving an option added under a fresh id appends it, writes one row and makes it findable by its ids |
| Store.ModifyThenFind | RefactorThis.API/Controllers/ProductsController.cs:128-130 | saving an edited stored product writes a row exactly when some value differs from the stored one, prices compared as decimals; the lookup then yields the written row and the options are untouched |
| Store.ModifyOptionThenFind | RefactorThis.API/Controllers/ProductsController.cs:298-300 | the same for an edited option, and the products are left as they were |
| Store.RemoveOptionThenFind | RefactorThis.API/Services/ProductRepository.cs:63-66 | saving the removal of a stored option writes one row and leaves no option with its id |
| Mapping.ProductDtos | RefactorThis.API/Controllers/ProductsController.cs:48-53 | the response list has one shape per product, in the same order |
| Mapping.OptionDtos | RefactorThis.API/Controllers/ProductsController.cs:186-191 | the response list has one shape per option, in the same order |
| Mapping.UpdateIsRecreate | RefactorThis.API/Controllers/ProductsController.cs:128 | an update overwrites Name, Description, Price and DeliveryPrice from the body and keeps only the Id |
| Mapping.UpdateOptionIsRecreate | RefactorThis.API/Controllers/ProductsController.cs:298 | an option update overwrites Name and Description from the body and keeps Id and ProductId |
| Repository.ProductRepository.constructor | RefactorThis.API/Services/ProductRepository.cs:13-16 | a repository starts over well-formed stored tables with nothing staged |
| Repository.ProductRepository.GetAllProducts | RefactorThis.API/Services/ProductRepository.cs:18-21 | answers every stored product sorted by name and logs the call |
| Repository.ProductRepository.FindProductsByName | RefactorThis.API/Services/ProductRepository.cs:23-26 | answers the case-insensitive name matches sorted by name and logs the call |
| Repository.ProductRepository.FindProductById | RefactorThis.API/Services/ProductRepository.cs:28-31 | answers the product with the id, if any, and logs the call |
| Repository.ProductRepository.AddProduct | RefactorThis.API/Services/ProductRepository.cs:33-36 | stages one addition and leaves the stored rows untouched |
| Repository.ProductRepository.RemoveProduct | RefactorThis.API/Services/ProductRepository.cs:38-46 | stages the removal of the product's options, in name order, then of the product, and leaves the stored rows untouched |
| Repository.ProductRepository.FindOptionsByProductId | RefactorThis.API/Services/ProductRepository.cs:48-51 | answers the product's options sorted by name and logs the call |
| Repository.ProductRepository.FindOptionByProductIdAndOptionId | RefactorThis.API/Services/ProductRepository.cs:53-56 | answers the option with both ids, if any, and logs the call |
| Repository.ProductRepository.AddProductOption | RefactorThis.API/Services/ProductRepository.cs:58-61 | stages one addition and leaves the stored rows untouched |
| Repository.ProductRepository.RemoveProductOption | RefactorThis.API/Services/ProductRepository.cs:63-66 | stages one removal and leaves the stored rows untouched |
| Repository.ProductRepository.TrackProductEdit | RefactorThis.API/Controllers/ProductsController.cs:128 | the change tracker records an overwritten product as a pending modification |
| Repository.ProductRepository.TrackOptionEdit | RefactorThis.API/Controllers/ProductsController.cs:298 | the change tracker records an overwritten option as a pending modification |
| Repository.ProductRepository.Save | RefactorThis.API/Services/ProductRepository.cs:68-71 | applies the staged changes and empties the set, answers true exactly when more than zero rows were written, and answers false with nothing changed when nothing was staged |
| Controller.ProductsResponse | RefactorThis.API/Controllers/ProductsController.cs:42-54 | 404 exactly when the lookup yields no list; otherwise 200 with the items in the same order and count, an empty list included |
| Controller.Labelled | RefactorThis.API/Controllers/ProductsController.cs:100 | a captioned value starts with the caption and contains the value |
| Controller.SavingProductFailed | RefactorThis.API/Controllers/ProductsController.cs:100 | the 500 text of a failed create names the product |
| Controller.ProductDiagnostic | RefactorThis.API/Controllers/ProductsController.cs:133 | a 500 text about a product starts with the failed action and contains the product's id and name |
| Controller.CreatingOptionFailed | RefactorThis.API/Controllers/ProductsController.cs:258 | the 500 text of a failed option create contains the product's id and name and the option's name |
| Controller.OptionDiagnostic | RefactorThis.API/Controllers/ProductsController.cs:303 | a 500 text about an option contains the product's id and name and the option's id and name |
| Controller.MentionsPrefix | RefactorThis.API/Controllers/ProductsController.cs:258 | appending to a diagnostic keeps everything it mentions |
| Controller.MentionsSuffix | RefactorThis.API/Controllers/ProductsController.cs:258 | prefixing a diagnostic keeps everything it mentions |
| Controller.ProductsController.constructor | RefactorThis.API/Controllers/ProductsController.cs:20-25 | the controller works over the given repository |
| Controller.ProductsController.GetProducts | RefactorThis.API/Controllers/ProductsController.cs:29-55 | an absent name calls only GetAllProducts, any present name (the empty one too) calls only FindProductsByName, and the answer is 200 with those products in order; 404 cannot occur with this repository |
| Controller.ProductsController.FindProductsById | RefactorThis.API/Controllers/ProductsController.cs:58-77 | a bad id gives "Invalid Id provided." with no call; otherwise 404 or 200 with the product under that id |
| Controller.ProductsController.CreateProduct | RefactorThis.API/Controllers/ProductsController.cs:80-104 | no body gives 400 and an invalid model gives 400, both touching nothing; otherwise exactly one product with the body's four fields and the new id is staged and saved, then 204 or 500 naming it; under a fresh id it is stored and findable |
| Controller.ProductsController.UpdateProduct | RefactorThis.API/Controllers/ProductsController.cs:107-137 | guards in order id, body, existence, each touching nothing; then the body is copied onto the product, keeping its id, and saved, giving 204 when some value differs from the stored one (prices compared as decimals) and 500 otherwise, after which the lookup answers the written row |
| Controller.ProductsController.SaveProductEdit | RefactorThis.API/Controllers/ProductsController.cs:128-136 | copying the body onto a stored product and saving answers 500 exactly when every value equals the stored one (prices as decimals), makes the lookup answer the written row and leaves the options as they were |
| Controller.ProductsController.DeleteProduct | RefactorThis.API/Controllers/ProductsController.cs:140-165 | a bad id or missing product stages nothing; otherwise the cascading removal is staged and saved, after which the product and all its options are gone and 204 is answered |
| Controller.ProductsController.SaveProductRemoval | RefactorThis.API/Controllers/ProductsController.cs:156-164 | staging the cascade and saving removes the product and its options, leaves every other row, and answers 204 |
| Controller.ProductsController.FindOptionsByProductId | RefactorThis.API/Controllers/ProductsController.cs:168-194 | a bad id or missing product is answered before the option query; otherwise 200 with the product's options in name order |
| Controller.ProductsController.FindOptionByProductIdAndOptionId | RefactorThis.API/Controllers/ProductsController.cs:197-222 | as written: the option is looked up with the parsed Id in both places, "Invalid optionId provided." is never answered, and with no option whose id equals its product id the answer is always 404 |
| Controller.ProductsController.FindOptionByProductIdAndOptionIdCorrected | RefactorThis.API/Controllers/ProductsController.cs:206-211 | with optionId parsed, a bad optionId gives "Invalid optionId provided." and a stored option is found under its two ids |
| Controller.ProductsController.CreateProductOption | RefactorThis.API/Controllers/ProductsController.cs:225-262 | guards in order id, body, model, product existence; the new option gets the fresh id and the parsed product id, is staged and saved, and under a fresh id is stored and findable |
| Controller.ProductsController.SaveNewOption | RefactorThis.API/Controllers/ProductsController.cs:250-261 | staging a freshly keyed option and saving stores it after the existing options and makes it findable |
| Controller.ProductsController.UpdateProductOption | RefactorThis.API/Controllers/ProductsController.cs:265-307 | guards in order id, optionId, body, then "Product not Found" before any option lookup, then "Product Option not Found"; then the body is copied onto the option and saved, giving 204 exactly when the values changed |
| Controller.ProductsController.SaveOptionEdit | RefactorThis.API/Controllers/ProductsController.cs:298-306 | copying the body onto a stored option and saving makes the lookup answer the edited values and leaves the products as they were |
| Controller.ProductsController.DeleteProductOption | RefactorThis.API/Controllers/ProductsController.cs:310-346 | guards in order id, optionId, "Product not Found", "Product Option not Found"; then the option is removed and saved, after which no option has its id |
| Controller.ProductsController.SaveOptionRemoval | RefactorThis.API/Controllers/ProductsController.cs:338-345 | staging a stored option's removal and saving removes exactly that id, leaves the products, and answers 204 |
| Scenarios.CreateThenFind | RefactorThis.API/Controllers/ProductsController.cs:80-104 | creating a product under a fresh id and fetching it by that id yields the new id with exactly the body's fields |
| Scenarios.UpdateThenFind | RefactorThis.API/Controllers/ProductsController.cs:107-137 | a changing update answers 204, and a later fetch yields the same id, the body's name and description, and prices equal to the body's as decimals |
| Scenarios.ResendThenFind | RefactorThis.API/Controllers/ProductsController.cs:107-137 | an update whose values the product already holds (prices equal as decimals, at any scale) answers 500, and a later fetch yields the product exactly as stored |
| Scenarios.DeleteThenFind | RefactorThis.API/Controllers/ProductsController.cs:140-165 | after deleting a stored product, fetching it answers 404 and no stored option points at it |
| Scenarios.OptionLookupDefect | RefactorThis.API/Controllers/ProductsController.cs:207 | for a stored option, the lookup as written answers 404 while the corrected lookup answers the option |

## Left out

- Asynchrony: `RemoveProduct` is `async void` in the source, so its option query can race with the caller's `Save`. The model runs every call in sequence and does not capture that race.
- `Guid.TryParse` formats: parsing is the function field `tryParse`, given from outside. `GuidText` renders the lower-case 8-4-4-4-12 form used in diagnostics.
- `Guid.NewGuid()`: the new identifier is a parameter. Its freshness is a precondition of the corollaries, not a fact the model derives.
- `ModelState.IsValid`: an input boolean. The validation errors it carries in the 400 answer are not modelled (`InvalidModel` has no payload).
- Text comparison: `OrdinalIgnoreCase` is modelled by folding ASCII letters only, and `OrderBy` on names by an ordinal lexicographic order (`NameLe`). The real order depends on SQL Server's collation.
- Queries.SortBy: stability of the order among equal names is not stated; the contract states sortedness and permutation only.
- Logging (`LogInformation`, `LogCritical`): omitted. The 500 diagnostics are modelled by what they contain.
- Startup wiring (dependency injection, the HTTP pipeline, HTTPS redirection, logger providers): framework plumbing. The AutoMapper configuration is replaced by the explicit functions of `Mapping`.
- `ProductDBContext` schema rules (maximum lengths, required names): enforced by the database, not by application code.
- Entities.Decimal: the 96-bit limit on the coefficient and the limit of 28 on the scale of System.Decimal are not modelled; coefficients are unbounded integers and arithmetic overflow cannot occur.
- Null string fields: entity and body strings are never null in the model.
- Persistence errors: EF Core throws on a duplicate key, on updating or deleting an absent row, and on concurrency conflicts. The model instead counts such a change as zero rows written and has it write nothing. The other changes staged in the same batch are still applied, so `Save` answers true when one of them writes a row, where EF Core would throw and roll the whole batch back.
- Change-tracker merging: several staged changes to the same entity are applied one after the other, not merged into one entry.
- In-place edits and aliasing: the controller overwrites the fields of the tracked entity it fetched. The model computes the edited value and stages it through `TrackProductEdit` / `TrackOptionEdit`; object identity is not modelled.
- Response envelopes: the `ProductsDto` / `ProductOptionsDto` wrappers are modelled by their `Items` list (`Body.ProductList`, `Body.OptionList`).
- The test double that answers `null` for a product list (`RefactorThis.API.Test/ProductControllerTest.cs:66-79`) is covered by `Controller.ProductsResponse` only. The concrete repository always answers a list.
- `RefactorThis.API/Models/ProductDto.cs`, `ProductOptionDto.cs`, `ProductOptionForCreationDto.cs` and `ProductOptionForUpdateDto.cs` are not part of this model. Their fields are the ones the controller and its tests use.

## Findings

| source | as written | input that shows it | evidently intended | confidence | as-written member | corrected member |
|---|---|---|---|---|---|---|
| RefactorThis.API/Controllers/ProductsController.cs:207 | the option id is taken from a second parse of `Id`; `optionId` is never read | `Id` = text of a product's id, `optionId` = text of one of its options' ids (option ids differ from product ids): the action answers 404 instead of the option | parse `optionId`, answer "Invalid optionId provided." when it is malformed, and look up the option under both ids | not executed | Controller.ProductsController.FindOptionByProductIdAndOptionId | Controller.ProductsController.FindOptionByProductIdAndOptionIdCorrected |
