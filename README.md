# watheta mini dashboard — a verified model of its core logic

This project models the decision logic of a small product and order
dashboard written in TypeScript and React, and proves what that logic
guarantees. It covers:

- the step wizard that both creation flows use (`AddProductTabs`): the
  active step, `goNext`, `goBack` with its optional jump, the footer
  buttons, the progress bar and the caption;
- the two creation containers. This covers their Next-button gates,
  `handleNext` (for products, a duplicate-name lookup whose HTTP answer is
  an input) and the publish handlers;
- the two zod schemas (`createProductSchema`, `createOrderSchema`) as
  predicates, with "now" as a parameter for the order schema;
- the products page: filtering, the category and status options, the
  slider bound and the statistics cards. The filter panel is included: its
  state, its changes and its active-filter count;
- the orders page's statistics cards and the orders table's cell helpers
  (initials, colours, total amount);
- the product-id hash and the two indicators built on it (satisfaction
  score, delivery status), and the stock and status badges;
- the dashboard breadcrumbs and the image uploader: the short name it
  shows, the picker guard and the upload procedure.

State that the source changes in place is modelled with classes:
`StepWizard.Wizard`, `CreateProduct.ProductCreation`,
`CreateOrder.OrderCreation`, `ProductFilters.FilterPanel` and
`ImageUploader.Uploader`. Their methods are specified against pure
functions, and the lemmas are proved about those functions. Everything
else is datatypes, functions and lemmas.

JavaScript's own semantics are written out where they matter:

- `JsNumber.Num` models a number input's value. An empty input gives NaN,
  and every comparison with NaN is false.
- `IdHash.ToInt32` models 32-bit wrap-around.
- `IdHash.Utf16` models UTF-16 code units.
- Falsy values: `0`, NaN and `''`.
- `Text.Split` follows the semantics of `split` on one character.
- `IdHash.Step` models `a << 5` as a 32-bit shift.

Observations the model makes precise, without claiming them as defects:

- The product form's default `image: ''` is present and is not a URL, so
  `createProductSchema` refuses every submission until an image is
  uploaded (`CreateProduct.DefaultImageBlocksCreate`).
- The Next gates of both flows are looser than the validation run on the
  click (`CreateProduct.InventoryGateAdmitsNaNStock`,
  `CreateOrder.ClientGateAdmitsBlankName`).
- The stock badge labels every product the page's "Low Stock" card counts
  as "Out of Stock" (`StockIndicator.CardsVersusLabels`).
- The products page starts with the range [0, 1000], which hides dearer
  products (`ProductList.InitialFiltersHideExpensive`).
- The satisfaction score never reaches 100 (`Satisfaction.Score`).
- The image name "shortening" can lengthen a name
  (`ImageUploader.ShortenCanLengthen`).
- A `goBack` jump is not range-checked (`StepWizard.BackIndexUnchecked`).
- The filter panel fixes its range when it mounts, which happens while the
  products are still loading; a later, larger `maxPrice` then shows one
  active filter nobody chose (`ProductFilters.LoadAfterMount`).
- The order's delivery date is checked on Next and again on Publish, so a
  form can pass one and fail the other (`CreateOrder.DateCheckedTwice`).

## Model

| member | source | states |
|---|---|---|
| StepWizard.NextIndex | app/dashboard/products/create/_components/AddProductTabs.tsx:45-50 | the index `goNext` leaves; NextIndexStep and NextIndexInRange state what it promises |
| StepWizard.NextIndexStep | app/dashboard/products/create/_components/AddProductTabs.tsx:45-50 | `goNext` moves one step forward exactly when the active step is before the last, and otherwise stays |
| StepWizard.NextIndexInRange | app/dashboard/products/create/_components/AddProductTabs.tsx:45-50 | `goNext` keeps the active step within the tabs and never past the last |
| StepWizard.BackIndex | app/dashboard/products/create/_components/AddProductTabs.tsx:52-61 | the index `goBack(step?)` leaves; BackIndexPlain, BackIndexZeroIsPlain, BackIndexJump, BackIndexInRange and BackIndexUnchecked state what it promises |
| StepWizard.BackIndexPlain | app/dashboard/products/create/_components/AddProductTabs.tsx:52-57 | `goBack()` decrements a positive step and leaves step 0 alone |
| StepWizard.BackIndexZeroIsPlain | app/dashboard/products/create/_components/AddProductTabs.tsx:58-60 | `goBack(0)` behaves like `goBack()` because 0 is falsy |
| StepWizard.BackIndexJump | app/dashboard/products/create/_components/AddProductTabs.tsx:52-61 | a truthy `step` wins over the decrement: the active step becomes `step` |
| StepWizard.BackIndexInRange | app/dashboard/products/create/_components/AddProductTabs.tsx:52-61 | `goBack` stays in range when the jump target is in range |
| StepWizard.BackIndexUnchecked | app/dashboard/products/create/_components/AddProductTabs.tsx:58-60 | the jump is not range-checked: `goBack(tabs.length)` leaves the range |
| StepWizard.Progress | app/dashboard/products/create/_components/AddProductTabs.tsx:101-108 | one segment per tab, highlighted exactly when its index is at most the active step |
| StepWizard.ProgressCount | app/dashboard/products/create/_components/AddProductTabs.tsx:101-108 | exactly activeStep + 1 segments are highlighted |
| StepWizard.PublishCaption | app/dashboard/products/create/_components/AddProductTabs.tsx:145-149 | never empty; the upload notice while an image uploads, else the container's button name when it is non-empty, else "Create Product" |
| StepWizard.Wizard.constructor | app/dashboard/products/create/_components/AddProductTabs.tsx:42 | the wizard starts on step 0 |
| StepWizard.Wizard.GoNext | app/dashboard/products/create/_components/AddProductTabs.tsx:45-50 | the new step is `NextIndex` of the old one, and the range invariant is kept |
| StepWizard.Wizard.GoBack | app/dashboard/products/create/_components/AddProductTabs.tsx:52-61 | the new step is `BackIndex` of the old one; the invariant is kept when the jump target is in range |
| StepWizard.Wizard.HandleNextClick | app/dashboard/products/create/_components/AddProductTabs.tsx:63-69 | with `onNext`, the step changes only as `onNext` calls `goNext`/`goBack`; without it, `goNext` |
| StepWizard.Wizard.HandleBackClick | app/dashboard/products/create/_components/AddProductTabs.tsx:71-77 | with `onBack`, the step changes only as `onBack` calls `goBack`; without it, `goBack()` |
| StepWizard.Wizard.BackDisabled | app/dashboard/products/create/_components/AddProductTabs.tsx:121 | in range, Back is disabled exactly where an argument-less `goBack` would leave the step unchanged |
| StepWizard.Wizard.ShowsPublish | app/dashboard/products/create/_components/AddProductTabs.tsx:128 | in range, Publish replaces Next exactly where `goNext` would leave the step unchanged |
| StepWizard.Wizard.PublishDisabled | app/dashboard/products/create/_components/AddProductTabs.tsx:138-142 | with both flags absent only loading disables Publish; while an image uploads (the "Uploading Image..." caption) it is always disabled; it is enabled exactly when neither loading nor either flag is true |
| StepWizard.Wizard.NextDisabled | app/dashboard/products/create/_components/AddProductTabs.tsx:156-159 | an absent `isNextDisabled` disables nothing, so only loading counts; when not loading the container's answer for the active step decides |
| StepWizard.Wizard.PressBack | app/dashboard/products/create/_components/AddProductTabs.tsx:118-125 | a click on a disabled Back changes nothing; otherwise `handleBackClick` runs; with no `onBack` the step moves back exactly when it was not 0 |
| StepWizard.Wizard.PressNext | app/dashboard/products/create/_components/AddProductTabs.tsx:152-159 | a click on a hidden or disabled Next changes nothing; otherwise `handleNextClick` runs; with no `onNext` the step advances by one exactly when Next was shown and enabled |
| StepWizard.Wizard.PressPublish | app/dashboard/products/create/_components/AddProductTabs.tsx:135-142 | `onPublish` is called exactly when Publish is shown and enabled; then nothing is loading or uploading, and the wizard is on the step `goNext` cannot leave |
| StepWizard.Wizard.Segments | app/dashboard/products/create/_components/AddProductTabs.tsx:101-108 | one progress segment per tab |
| StepWizard.Wizard.Caption | app/dashboard/products/create/_components/AddProductTabs.tsx:111 | the caption is "Step ", digits reading back as activeStep + 1, " of ", digits reading back as the number of tabs, ": " and the active tab's label |
| ProductSchema.ParseStatus | types/products.ts:14 | a parsed status has exactly the given name |
| ProductSchema.ParseStatusName | types/products.ts:14 | every enum member parses back from its name |
| ProductSchema.FieldValid | types/products.ts:6-17 | one field's rule; ParseWellFormed, FractionalStockAccepted and EmptyImageIsPresent state its consequences |
| ProductSchema.Valid | types/products.ts:4-18 | every field rule holds; `Parse` succeeds exactly on these forms |
| ProductSchema.Parse | types/products.ts:4-18 | the parse succeeds exactly on valid forms, keeps every field, and defaults a missing status to active |
| ProductSchema.ParseWellFormed | types/products.ts:6-13 | an accepted product has non-empty name, SKU and category and a non-negative price and stock |
| ProductSchema.FractionalStockAccepted | types/products.ts:13 | stock need only be a number ≥ 0; 0.5 is accepted |
| ProductSchema.EmptyImageIsPresent | types/products.ts:17 | an image of '' is present, so it must pass the URL check; it fails the field and the schema |
| OrderSchema.ParsePayment | types/orders.ts:26 | a parsed payment status has exactly the given name |
| OrderSchema.ParseDelivery | types/orders.ts:27-29 | a parsed delivery status has exactly the given name |
| OrderSchema.ParseNames | types/orders.ts:26-29 | every payment and delivery member parses back from its name |
| OrderSchema.GeneratedOrderId | types/orders.ts:32 | the identifier is "ORD-" followed by digits that read back as the timestamp |
| OrderSchema.FieldValid | types/orders.ts:5-32 | one field's rule at instant `now`; ClientNameRule and DeliveryDateEarlier state its text and date rules |
| OrderSchema.Valid | types/orders.ts:3-34 | every field rule holds at `now`; `Parse` succeeds exactly on these forms |
| OrderSchema.Parse | types/orders.ts:3-34 | the parse succeeds exactly on valid forms. Name and address are trimmed and non-empty; products are non-empty ids; quantity is ≥ 1; the date is not before now; statuses default to pending; the id defaults to ORD-now |
| OrderSchema.ClientNameRule | types/orders.ts:5-16 | name and address are accepted exactly when they hold a non-white-space character |
| OrderSchema.DeliveryDateEarlier | types/orders.ts:21 | a date accepted now is accepted at every earlier instant |
| CreateProduct.IsNextStepDisabled | app/dashboard/products/create/_components/CreateProductContainer.tsx:39-50 | the per-step Next gate; BasicGateIsValidation, InventoryGate, InventoryGateImpliesRules, InventoryGateAdmitsNaNStock, InventoryGateRejectsZeroPrice and LaterStepsEnabled state what it decides |
| CreateProduct.BasicGateIsValidation | app/dashboard/products/create/_components/CreateProductContainer.tsx:41-42 | on step 0, Next is enabled exactly when the basic-information fields validate |
| CreateProduct.InventoryGate | app/dashboard/products/create/_components/CreateProductContainer.tsx:43-44 | on step 1, Next is enabled exactly when the price is a positive number and the stock is not a negative number |
| CreateProduct.InventoryGateImpliesRules | app/dashboard/products/create/_components/CreateProductContainer.tsx:43-44 | with a numeric stock, an enabled step-1 gate implies the price and stock rules |
| CreateProduct.InventoryGateAdmitsNaNStock | app/dashboard/products/create/_components/CreateProductContainer.tsx:43-44 | an empty stock input enables Next, yet step-1 validation refuses it |
| CreateProduct.InventoryGateRejectsZeroPrice | app/dashboard/products/create/_components/CreateProductContainer.tsx:43-44 | a zero price validates but disables Next |
| CreateProduct.LaterStepsEnabled | app/dashboard/products/create/_components/CreateProductContainer.tsx:45-48 | steps 2 and beyond never disable Next |
| CreateProduct.DuplicateMessage | app/dashboard/products/create/_components/CreateProductContainer.tsx:110-112 | the duplicate toast; DuplicateMessageNamesProduct states that it quotes the name |
| CreateProduct.DuplicateMessageNamesProduct | app/dashboard/products/create/_components/CreateProductContainer.tsx:110-112 | the duplicate toast quotes the product name |
| CreateProduct.NextStepEffects | app/dashboard/products/create/_components/CreateProductContainer.tsx:71-132 | Next advances iff the step's fields validate and, on step 0, the name is free. The lookup is sent iff step 0 validated. The name error is set iff a duplicate was found. A toast is shown iff the step does not advance |
| CreateProduct.DuplicateBlocks | app/dashboard/products/create/_components/CreateProductContainer.tsx:105-114 | a duplicate blocks the step, sets "Product name must be unique" and names the product in the toast |
| CreateProduct.LookupFailureBlocks | app/dashboard/products/create/_components/CreateProductContainer.tsx:99-120 | a failed lookup blocks the step with the retry toast and leaves field errors alone |
| CreateProduct.LookupClasses | app/dashboard/products/create/_components/CreateProductContainer.tsx:94-116 | free exactly on a 404 or an ok JSON body that is not a non-empty array; a failure exactly on a rejected fetch, a non-404 status that is not ok, or an ok body that is not JSON; never both duplicate and free |
| CreateProduct.CreateSubmission | app/dashboard/products/create/_components/CreateProductContainer.tsx:53-64 | something is submitted iff the whole schema validates, and it is the raw form values |
| CreateProduct.EmptyRequiredBlocksCreate | app/dashboard/products/create/_components/CreateProductContainer.tsx:56-60 | an empty name, SKU or category blocks creation |
| CreateProduct.DefaultImageBlocksCreate | context/products/AddProductContext.tsx:49 | with the default image '' left in place, nothing can be created |
| CreateProduct.ProductCreation.constructor | context/products/AddProductContext.tsx:41-50 | the page starts on step 0 with the provider's default values |
| CreateProduct.ProductCreation.Edit | context/products/AddProductContext.tsx:39-51 | user input replaces the form values and nothing else |
| CreateProduct.ProductCreation.HandleNext | app/dashboard/products/create/_components/CreateProductContainer.tsx:71-132 | the wizard moves exactly as `NextStepEffects` says. The lookup count, name error and toasts record its effects; the form is unchanged |
| CreateProduct.ProductCreation.PressNext | app/dashboard/products/create/_components/CreateProductContainer.tsx:142 | a press moves by at most one step, and only when Next was enabled and, on step 0, the name was free |
| CreateProduct.ProductCreation.HandleCreateProduct | app/dashboard/products/create/_components/CreateProductContainer.tsx:53-68 | a valid form is submitted as is; an invalid one adds the fill-in toast |
| CreateOrder.IsNextStepDisabled | app/dashboard/orders/create/_components/CreateOrderContainer.tsx:35-44 | the per-step Next gate; ClientValidationImpliesGate, ClientGateAdmitsBlankName, DetailValidationImpliesGate and DetailGateAdmitsInvalid relate it to validation |
| CreateOrder.ClientValidationImpliesGate | app/dashboard/orders/create/_components/CreateOrderContainer.tsx:37-38 | passing the client step's validation implies that its Next was enabled |
| CreateOrder.ClientGateAdmitsBlankName | app/dashboard/orders/create/_components/CreateOrderContainer.tsx:37-38 | a blank name with no date enables Next, yet validation refuses it |
| CreateOrder.DetailValidationImpliesGate | app/dashboard/orders/create/_components/CreateOrderContainer.tsx:39-40 | passing the details step's validation implies that its Next was enabled |
| CreateOrder.DetailGateAdmitsInvalid | app/dashboard/orders/create/_components/CreateOrderContainer.tsx:39-40 | an empty product id, or an empty quantity input, enables Next yet fails validation |
| CreateOrder.NextStepEffects | app/dashboard/orders/create/_components/CreateOrderContainer.tsx:70-92 | Next advances iff the step's fields validate; otherwise exactly the fill-in toast |
| CreateOrder.ClientStepAdvance | app/dashboard/orders/create/_components/CreateOrderContainer.tsx:71-81 | the client step advances iff name and address hold visible text and the date is not in the past |
| CreateOrder.DateCheckedTwice | app/dashboard/orders/create/_components/CreateOrderContainer.tsx:47-81 | the date is checked on Next and again on Publish: a form whose client step advanced at t1 is refused at any later t2 past its date, unedited |
| CreateOrder.CreateSubmission | app/dashboard/orders/create/_components/CreateOrderContainer.tsx:47-63 | something is submitted iff the schema validates; it is the raw values with `order_id` overwritten |
| CreateOrder.SubmissionKeepsFields | app/dashboard/orders/create/_components/CreateOrderContainer.tsx:55-61 | the submission keeps every field, and its id reads back as "ORD-" and the submission instant |
| CreateOrder.SubmissionStaysValid | app/dashboard/orders/create/_components/CreateOrderContainer.tsx:55-63 | overwriting `order_id` keeps the submission valid |
| CreateOrder.OrderCreation.constructor | context/orders/AddOrdersContext.tsx:39-51 | the page starts on step 0 with the provider's default values |
| CreateOrder.OrderCreation.Edit | context/orders/AddOrdersContext.tsx:39-51 | user input replaces the form values and nothing else |
| CreateOrder.OrderCreation.HandleNext | app/dashboard/orders/create/_components/CreateOrderContainer.tsx:70-92 | the wizard moves exactly as `NextStepEffects` says and the toast is recorded |
| CreateOrder.OrderCreation.HandleCreateOrder | app/dashboard/orders/create/_components/CreateOrderContainer.tsx:47-67 | a valid form is submitted with the generated id; an invalid one adds the fill-in toast |
| CreateOrder.CancelledChoiceRefused | app/dashboard/orders/create/_components/AddOrderPayment.tsx:72-75 | as written, picking the select's 'cancelled' fails the delivery rule and nothing is submitted; the other three items pass |
| CreateOrder.CorrectedChoicesAccepted | app/dashboard/orders/create/_components/AddOrderPayment.tsx:72-75 | with the schema's spelling every item passes the delivery rule and parses to its own status |
| OrderDetails.Selected | app/dashboard/orders/create/_components/AddOrderDetails.tsx:34 | a missing products value reads as the empty list |
| OrderDetails.Toggled | app/dashboard/orders/create/_components/AddOrderDetails.tsx:37-39 | the toggled list; ToggleAbsentAppends, TogglePresentRemoves, ToggleTwiceRestores and ToggleKeepsDistinct state what it promises |
| OrderDetails.ToggleAbsentAppends | app/dashboard/orders/create/_components/AddOrderDetails.tsx:37-39 | an id that is not selected is appended at the end |
| OrderDetails.TogglePresentRemoves | app/dashboard/orders/create/_components/AddOrderDetails.tsx:37-38 | a selected id disappears entirely; every other id keeps its multiplicity and the relative order is kept |
| OrderDetails.ToggleTwiceRestores | app/dashboard/orders/create/_components/AddOrderDetails.tsx:36-41 | toggling an absent id twice restores the list |
| OrderDetails.ToggleKeepsDistinct | app/dashboard/orders/create/_components/AddOrderDetails.tsx:36-41 | a duplicate-free selection stays duplicate-free |
| OrderDetails.ToggleProduct | app/dashboard/orders/create/_components/AddOrderDetails.tsx:36-41 | the form's products become the toggled list and nothing else changes |
| ProductList.Matches | app/dashboard/products/page.tsx:39-49 | the per-product filter test; FilteredProducts, NoFilterIsIdentity and InitialFiltersHideExpensive state what it keeps |
| ProductList.FilteredProducts | app/dashboard/products/page.tsx:38-50 | the filtered list is a subsequence of the products. Every kept product matches all three tests, and every matching product is kept |
| ProductList.NoFilterIsIdentity | app/dashboard/products/page.tsx:40-48 | with no category or status and a range covering every price, nothing is filtered out |
| ProductList.InitialFiltersHideExpensive | app/dashboard/products/page.tsx:23-27 | the page's starting range [0, 1000] hides any product priced above 1000 |
| ProductList.Categories | app/dashboard/products/page.tsx:53-58 | the category options; CategoriesExact states them exactly |
| ProductList.CategoriesExact | app/dashboard/products/page.tsx:53-58 | the category options are strictly sorted and are exactly the categories in use |
| ProductList.Statuses | app/dashboard/products/page.tsx:60-63 | the status options; StatusesExact states them exactly |
| ProductList.StatusesExact | app/dashboard/products/page.tsx:60-63 | the status options are strictly sorted and are exactly the statuses in use |
| ProductList.MaxPrice | app/dashboard/products/page.tsx:65-67 | the bound is at least 1000 and every price. It is 1000 or some product's price |
| ProductList.ActiveCount | app/dashboard/products/page.tsx:161 | at most the total; zero exactly when no product is active |
| ProductList.LowStockCount | app/dashboard/products/page.tsx:175 | at most the total |
| ProductList.OutOfStockCount | app/dashboard/products/page.tsx:190 | at most the total |
| ProductList.StockCardsDisjoint | app/dashboard/products/page.tsx:175-190 | the low-stock and out-of-stock cards count disjoint products, so their sum is at most the total |
| ProductList.FilteredCountBounded | app/dashboard/products/page.tsx:145-147 | the "after filtering" figure is the number of matching products and at most the total |
| ProductList.Table | app/dashboard/products/page.tsx:211-247 | spinner iff loading; "No products yet" iff loaded and empty; "no match" only when no product matches; otherwise the non-empty filtered rows |
| ProductFilters.Cleared | app/dashboard/products/_components/ProductsFilters.tsx:53-58 | cleared filters have no category or status and the full range [0, maxPrice] |
| ProductFilters.Stored | app/dashboard/products/_components/ProductsFilters.tsx:47 | 'all' is stored as ''; AllCategoriesAdmitsEverything and AllStatusesAdmitsEverything state its effect |
| ProductFilters.Applied | app/dashboard/products/_components/ProductsFilters.tsx:44-51 | the filters after one change; AppliedChangesOnlyItsKey and the three Remove…Badge lemmas state what it changes |
| ProductFilters.AppliedChangesOnlyItsKey | app/dashboard/products/_components/ProductsFilters.tsx:44-48 | a change replaces only its own key. 'all' is stored as ''; a range is stored as given |
| ProductFilters.AllCategoriesAdmitsEverything | app/dashboard/products/_components/ProductsFilters.tsx:44-48 | choosing "All categories" lets every product past the category test |
| ProductFilters.AllStatusesAdmitsEverything | app/dashboard/products/_components/ProductsFilters.tsx:44-48 | choosing "All statuses" lets every product past the status test |
| ProductFilters.ActiveFiltersCount | app/dashboard/products/_components/ProductsFilters.tsx:63-67 | the count is between 0 and 3. It is 0 iff the filters are the cleared ones, and 3 iff all three are set |
| ProductFilters.RemoveCategoryBadge | app/dashboard/products/_components/ProductsFilters.tsx:175 | removing the category badge clears only the category and drops the count by one |
| ProductFilters.RemoveStatusBadge | app/dashboard/products/_components/ProductsFilters.tsx:187 | removing the status badge clears only the status and drops the count by one |
| ProductFilters.RemovePriceBadge | app/dashboard/products/_components/ProductsFilters.tsx:203-205 | removing the price badge restores the full range and drops the count by one |
| ProductFilters.ClearedShowsAll | app/dashboard/products/_components/ProductsFilters.tsx:53-61 | cleared filters over the page's `maxPrice` show every product with a non-negative price |
| ProductFilters.FilterPanel.constructor | app/dashboard/products/_components/ProductsFilters.tsx:36-40 | the panel starts with the cleared filters and has reported nothing |
| ProductFilters.FilterPanel.Rerender | app/dashboard/products/_components/ProductsFilters.tsx:30-35 | a new `maxPrice` prop replaces the old one; the filters and the reports stay |
| ProductFilters.FilterPanel.ActiveCount | app/dashboard/products/_components/ProductsFilters.tsx:63-67 | against the current `maxPrice`, the badge count is at most 3 and 0 exactly when the filters are the cleared ones for that `maxPrice` |
| ProductFilters.FilterPanel.HandleFilterChange | app/dashboard/products/_components/ProductsFilters.tsx:44-51 | the filters become the applied change, and that very record is reported; `maxPrice` stays |
| ProductFilters.FilterPanel.ClearFilters | app/dashboard/products/_components/ProductsFilters.tsx:53-61 | the filters become the cleared ones for the current `maxPrice`, the count drops to 0, and the record is reported |
| ProductFilters.StaleRangeCounts | app/dashboard/products/_components/ProductsFilters.tsx:63-67 | the range cleared for one `maxPrice` counts as one active filter under any other |
| ProductFilters.LoadAfterMount | app/dashboard/products/page.tsx:198-203 | a panel mounted while loading (maxPrice 1000) that then receives a dearer maxPrice shows one active filter with the page's [0, 1000], and "Clear all" widens to the new maxPrice |
| OrderStats.TotalOrders | app/dashboard/orders/page.tsx:28 | the total card; CardsBounded and CorrectedCountsPartition relate the other cards to it |
| OrderStats.CountStatus | app/dashboard/orders/page.tsx:29-37 | the number of orders with one delivery status, at most the total |
| OrderStats.PendingOrders | app/dashboard/orders/page.tsx:29-31 | at most the total |
| OrderStats.CompletedOrders | app/dashboard/orders/page.tsx:32-34 | at most the total |
| OrderStats.CancelledOrders | app/dashboard/orders/page.tsx:35-37 | at most the total |
| OrderStats.CardsBounded | app/dashboard/orders/page.tsx:28-37 | the three cards count disjoint orders, so their sum is at most the total |
| OrderStats.CancelledAlwaysZero | app/dashboard/orders/page.tsx:35-37 | as written, the cancelled card is 0 for every list of schema-valid orders |
| OrderStats.CanceledOrderNotCounted | app/dashboard/orders/page.tsx:35-37 | one canceled order: the card as written shows 0, the corrected count is 1 |
| OrderStats.CanceledOrders | types/orders.ts:27-29 | the corrected card counts the schema's 'canceled', at most the total |
| OrderStats.CorrectedCountsPartition | app/dashboard/orders/page.tsx:28-37 | with the corrected card, the four schema statuses sum to the total for valid orders |
| OrderStats.Table | app/dashboard/orders/page.tsx:154-179 | spinner iff loading; the empty state iff loaded with no orders; otherwise every order |
| StockIndicator.Level | app/dashboard/products/_components/StockIndicator.tsx:1-24 | Out of Stock iff stock < 10; In Stock iff stock ≥ 50; Low Stock in between |
| StockIndicator.Label | app/dashboard/products/_components/StockIndicator.tsx:1-24 | the badge text per level; LevelsDistinguishable and CardsVersusLabels state what it shows |
| StockIndicator.DotColour | app/dashboard/products/_components/StockIndicator.tsx:1-24 | the dot colour per level; LevelsDistinguishable states that it tells the levels apart |
| StockIndicator.TextColour | app/dashboard/products/_components/StockIndicator.tsx:1-24 | the text colour per level; LevelsDistinguishable states that it tells the levels apart |
| StockIndicator.LevelMonotone | app/dashboard/products/_components/StockIndicator.tsx:1-24 | more stock never shows a worse level |
| StockIndicator.LevelsDistinguishable | app/dashboard/products/_components/StockIndicator.tsx:2-23 | the three levels have different labels, dot colours and text colours |
| StockIndicator.CardsVersusLabels | app/dashboard/products/_components/StockIndicator.tsx:2-8 | products in the page's low-stock and out-of-stock cards are both labelled "Out of Stock" |
| StatusBadge.Label | app/dashboard/products/_components/StatusBadge.tsx:35 | the label has the status's length: the first character upper-cased, the rest unchanged |
| StatusBadge.VariantOf | app/dashboard/products/_components/StatusBadge.tsx:4-15 | `getStatusVariant`; CaseInsensitive, UnknownLooksInactive, VariantMatchesColour and SchemaStatusesDistinct state what it promises |
| StatusBadge.ColourOf | app/dashboard/products/_components/StatusBadge.tsx:17-28 | `getStatusColor`; CaseInsensitive, UnknownLooksInactive and VariantMatchesColour state what it promises |
| StatusBadge.CaseInsensitive | app/dashboard/products/_components/StatusBadge.tsx:5-18 | variant and colour depend only on the lower-cased status |
| StatusBadge.UnknownLooksInactive | app/dashboard/products/_components/StatusBadge.tsx:12-26 | an unrecognised status gets exactly the variant and colour of inactive |
| StatusBadge.VariantMatchesColour | app/dashboard/products/_components/StatusBadge.tsx:6-26 | default goes with green, outline with yellow, secondary with grey, in both directions |
| StatusBadge.SchemaStatusesDistinct | app/dashboard/products/_components/StatusBadge.tsx:6-11 | the three schema statuses get three different variants |
| IdHash.ToInt32 | app/dashboard/products/_components/SatisfactionIndicator.tsx:12-13 | the result is a signed 32-bit value congruent to the input modulo 2^32 |
| IdHash.Step | app/dashboard/products/_components/SatisfactionIndicator.tsx:12-13 | one fold step; StepIs31 states it as 31·a + unit wrapped to 32 bits |
| IdHash.StepIs31 | app/dashboard/products/_components/SatisfactionIndicator.tsx:12-13 | one fold step multiplies by 31, adds the code unit and wraps to 32 bits |
| IdHash.Utf16 | app/dashboard/products/_components/SatisfactionIndicator.tsx:11-12 | one or two 16-bit code units, which decode back to the character |
| IdHash.CodeUnits | app/dashboard/products/_components/SatisfactionIndicator.tsx:11-12 | the id's code units are 16-bit values, at least one per character |
| IdHash.HashFrom | app/dashboard/products/_components/SatisfactionIndicator.tsx:11-14 | the fold from an accumulator; HashFromIsPolynomial states it as a wrapped polynomial |
| IdHash.Hash | app/dashboard/products/_components/SatisfactionIndicator.tsx:11-14 | the hash is always a signed 32-bit value |
| IdHash.HashFromIsPolynomial | app/dashboard/products/_components/SatisfactionIndicator.tsx:11-14 | wrapping at every step equals evaluating the polynomial in 31 and wrapping once |
| IdHash.HashIsPolynomial | app/dashboard/products/_components/DeliveryProgress.tsx:12-15 | the id hash is the polynomial hash of the code units in 31, as a signed 32-bit value |
| IdHash.SingleUnitHash | app/dashboard/products/_components/SatisfactionIndicator.tsx:11-14 | a one-character id below U+10000 hashes to its code |
| Satisfaction.Score | app/dashboard/products/_components/SatisfactionIndicator.tsx:15 | the score lies in [60, 99] |
| Satisfaction.TextColour | app/dashboard/products/_components/SatisfactionIndicator.tsx:17-22 | `getSatisfactionColor`; ColoursShareBand states that it agrees with the bar |
| Satisfaction.BarColour | app/dashboard/products/_components/SatisfactionIndicator.tsx:33-40 | the bar's colour chain; ColoursShareBand states that it agrees with the text |
| Satisfaction.ColoursShareBand | app/dashboard/products/_components/SatisfactionIndicator.tsx:17-41 | number and bar are drawn in the same colour band (green ≥ 90, blue ≥ 80, yellow ≥ 70, red) |
| Satisfaction.EveryScoreReachable | app/dashboard/products/_components/SatisfactionIndicator.tsx:11-15 | every score from 60 to 99 comes from some one-character id |
| Satisfaction.EmptyIdScore | app/dashboard/products/_components/SatisfactionIndicator.tsx:11-22 | the empty id scores 60, drawn red |
| Satisfaction.Indicator | app/dashboard/products/_components/SatisfactionIndicator.tsx:4-46 | placeholder iff not on the client. Otherwise the score is in range, the bar width equals the score, and both colours share its band |
| DeliveryProgress.StatusIndex | app/dashboard/products/_components/DeliveryProgress.tsx:16 | the index lies in [0, 3] |
| DeliveryProgress.Status | app/dashboard/products/_components/DeliveryProgress.tsx:11-16 | the status is always one of pending, processing, shipped and delivered |
| DeliveryProgress.StatusColour | app/dashboard/products/_components/DeliveryProgress.tsx:18-31 | `getStatusColor`; NeverGrey and ColoursDistinct state what it shows |
| DeliveryProgress.NeverGrey | app/dashboard/products/_components/DeliveryProgress.tsx:18-31 | the grey default colour is never used |
| DeliveryProgress.ColoursDistinct | app/dashboard/products/_components/DeliveryProgress.tsx:19-27 | the four statuses have four different colours |
| DeliveryProgress.EveryStatusReachable | app/dashboard/products/_components/DeliveryProgress.tsx:12-16 | every status comes from some one-character id |
| DeliveryProgress.EmptyIdPending | app/dashboard/products/_components/DeliveryProgress.tsx:12-36 | the empty id shows "Pending" |
| DeliveryProgress.Label | app/dashboard/products/_components/DeliveryProgress.tsx:36 | the label is the status with its own first letter upper-cased and the rest unchanged |
| DeliveryProgress.Indicator | app/dashboard/products/_components/DeliveryProgress.tsx:4-40 | placeholder iff not on the client; otherwise the capitalised status in a non-grey colour |
| OrdersTable.Heads | app/dashboard/orders/_components/OrdersDataTable.tsx:56-57 | at most one character per word |
| OrdersTable.Initials | app/dashboard/orders/_components/OrdersDataTable.tsx:54-59 | at most two characters |
| OrdersTable.HeadsOfNonEmpty | app/dashboard/orders/_components/OrdersDataTable.tsx:56-57 | the heads are the first characters of the non-empty words, in order |
| OrdersTable.InitialsOfWords | app/dashboard/orders/_components/OrdersDataTable.tsx:54-59 | the initials are the upper-cased first characters of the first two non-empty words |
| OrdersTable.EmptyNameNoInitials | app/dashboard/orders/_components/OrdersDataTable.tsx:54-59 | an empty name has no initials |
| OrdersTable.TotalAmount | app/dashboard/orders/_components/OrdersDataTable.tsx:107-109 | `quantity * products.length`; PerProductIsProduct and TotalIsPerProduct state it as a sum per product |
| OrdersTable.PerProductIsProduct | app/dashboard/orders/_components/OrdersDataTable.tsx:109 | adding the quantity once per product equals quantity × count |
| OrdersTable.TotalIsPerProduct | app/dashboard/orders/_components/OrdersDataTable.tsx:107-109 | the total charges the quantity once per product; no products cost 0; a quantity ≥ 1 gives at least the product count |
| OrdersTable.PaymentColour | app/dashboard/orders/_components/OrdersDataTable.tsx:75-80 | the payment badge colour; PaymentColours states it per status |
| OrdersTable.PaymentColours | app/dashboard/orders/_components/OrdersDataTable.tsx:75-80 | paid iff green, pending iff yellow, anything else iff red (refunded included) |
| OrdersTable.DeliveryDot | app/dashboard/orders/_components/OrdersDataTable.tsx:89-94 | the delivery dot colour; DeliveryDots states it per status |
| OrdersTable.DeliveryDots | app/dashboard/orders/_components/OrdersDataTable.tsx:89-94 | delivered iff green, shipped iff blue, anything else iff grey; pending and canceled look alike |
| Breadcrumbs.Segments | app/dashboard/layout.tsx:23 | `split('/').filter(Boolean)`; RepeatedSlashIgnored, TrailingSlashIgnored and SingleSegmentNoItems state what it keeps |
| Breadcrumbs.PathSegments | app/dashboard/layout.tsx:23-27 | the first segment is dropped whatever it is: max(#segments − 1, 0) remain |
| Breadcrumbs.Href | app/dashboard/layout.tsx:30 | one item's link; HrefExtends states how consecutive links extend |
| Breadcrumbs.CrumbAt | app/dashboard/layout.tsx:29-38 | one item; CrumbShape states its label and link, and GetBreadcrumbItems builds every item as it |
| Breadcrumbs.GetBreadcrumbItems | app/dashboard/layout.tsx:22-42 | one item per remaining segment, item i being `CrumbAt` i |
| Breadcrumbs.CrumbShape | app/dashboard/layout.tsx:31-38 | a label is its segment, capitalised and of the same length; only the last item has no link |
| Breadcrumbs.HrefExtends | app/dashboard/layout.tsx:30 | each link is the previous one plus '/' and the next segment |
| Breadcrumbs.RepeatedSlashIgnored | app/dashboard/layout.tsx:23 | a doubled slash gives the same segments as a single one |
| Breadcrumbs.TrailingSlashIgnored | app/dashboard/layout.tsx:23 | a trailing slash changes nothing |
| Breadcrumbs.SingleSegmentNoItems | app/dashboard/layout.tsx:23-27 | a path with a single segment has that segment only and no items |
| Breadcrumbs.ShowsBreadcrumbs | app/dashboard/layout.tsx:76 | whether the trail is drawn; DashboardHasNoItems states that the dashboard's own page hides it |
| Breadcrumbs.DashboardHasNoItems | app/dashboard/layout.tsx:76-78 | "/dashboard" has the single segment "dashboard" and no items, and its trail is not drawn |
| ImageUploader.ShortUrl | components/shared/ImageUploader.tsx:31-51 | an empty value shows ''; a value the URL parser refuses is shown as it is |
| ImageUploader.Tail | components/shared/ImageUploader.tsx:36-38 | the path after the marker; TailAfterFirstMarker states it |
| ImageUploader.TailAfterFirstMarker | components/shared/ImageUploader.tsx:36-38 | the tail starts right after the first "/watheta-dashboard/", or is the whole path when there is none |
| ImageUploader.LastSegment | components/shared/ImageUploader.tsx:39 | `pop() || tail`; LastSegmentIsLastPart states it |
| ImageUploader.LastSegmentIsLastPart | components/shared/ImageUploader.tsx:39 | the last segment is the last non-empty slash-free part, or the tail when there is none |
| ImageUploader.Shorten | components/shared/ImageUploader.tsx:40-46 | the shortened name; ShortNamesKept, LongNameKeepsExtension, LongNameWithoutDot and ShortenCanLengthen state what it promises |
| ImageUploader.ShortNamesKept | components/shared/ImageUploader.tsx:40-46 | names of at most 28 characters are shown unchanged |
| ImageUploader.LongNameKeepsExtension | components/shared/ImageUploader.tsx:40-45 | a long name keeps at most 20 characters before the last '.', then '...', then the extension exactly |
| ImageUploader.LongNameWithoutDot | components/shared/ImageUploader.tsx:40-45 | a long name without a dot becomes its first 20 characters and '...', which is shorter |
| ImageUploader.ShortenCanLengthen | components/shared/ImageUploader.tsx:40-45 | a long name whose last dot is within the first 20 characters gains exactly three characters; a long name with a dot gets longer exactly when its last dot is before index 23 |
| ImageUploader.FailureMessage | components/shared/ImageUploader.tsx:69-74 | a refusal's message is never empty: the server's or error's message when it is non-empty, and "Upload failed" exactly otherwise |
| ImageUploader.Uploader.constructor | components/shared/ImageUploader.tsx:27-28 | the control starts idle, without error and without notifications |
| ImageUploader.Uploader.HandlePick | components/shared/ImageUploader.tsx:53-56 | the picker opens exactly when the control is not disabled, not uploading and holds no image |
| ImageUploader.Uploader.HandleFile | components/shared/ImageUploader.tsx:58-80 | without a file nothing changes. Otherwise upload start and end are announced and it always ends idle. An accepted url goes to the parent; a refusal sets the failure message |
| ImageUploader.Uploader.HandleRemove | components/shared/ImageUploader.tsx:82-84 | the parent is told the image is now '' |
| Text.Split | app/dashboard/layout.tsx:23 | `split` always yields at least one part |
| Text.JoinSplit | app/dashboard/layout.tsx:23-30 | joining the parts of a split with the same separator gives back the string |
| Text.TrimIsStretch | types/orders.ts:5-16 | `trim` leaves a stretch of the string with only ECMAScript white space before and after it |
| Text.TrimEndsVisible | types/orders.ts:5-16 | what `trim` leaves neither starts nor ends with white space |
| Text.TrimNonEmpty | types/orders.ts:5-16 | the trimmed string is non-empty iff the string holds a non-white-space character |
| Text.DecimalRoundTrip | types/orders.ts:32 | the decimal digits of a number read back as that number |
| Text.IndexOf | components/shared/ImageUploader.tsx:37 | the first occurrence, or -1 exactly when there is none |
| Text.LastIndexOf | components/shared/ImageUploader.tsx:41 | the last occurrence, or -1 exactly when there is none |
| Seqs.Unique | app/dashboard/products/page.tsx:54-61 | `[...new Set(xs)]` is duplicate-free and holds exactly the values of the list |
| Seqs.Sort | app/dashboard/products/page.tsx:57-62 | the default string sort returns a sorted permutation and keeps a list duplicate-free |
| Seqs.WhereIsSubsequence | app/dashboard/products/page.tsx:39 | `filter` keeps the order of what it keeps |

## Left out

- Rendering, styling and layout: JSX trees, class names other than the
  colours above, modals, the sidebar, the top bar and the form step views.
- I/O: `fetch`, `res.json()`, react-query caching and invalidation, and the
  mutations behind `handleSubmit`. Their outcomes enter the model as
  inputs (`CreateProduct.NameLookup`, `ImageUploader.UploadOutcome`).
- react-hook-form and zod internals. `trigger(fields)` is the schema
  restricted to those fields, `getValues()` returns the raw values, and
  `watch` reads the current form. Field-error lifetimes and re-renders are
  not modelled.
- `AddOrdersContext` submits orders through the product-creation
  mutation. This is noted, not modelled, because the mutation is library
  behaviour.
- The order flow's own tab component (`AddOrderTabs`) is not part of this
  model. The order page reuses `StepWizard.Wizard`.
- The scroll-to-top effect of the wizard and the `useClientOnly` mount
  timing, except as the `isClient` input of the indicators. Double clicks
  and races around the asynchronous gates are also out.
- `CustomerFeedback`, which is random, and the clipboard helper, which is
  a browser API.
- Currency, date and number formatting (`Intl.NumberFormat`, date-fns).
  The `created_at` field and its default.
- The `URL` constructor and zod's URL check are foreign parsers. They
  enter as a parsed path (`ImageUploader.ShortUrl`) or as an `isUrl`
  predicate (`ProductSchema.FieldValid`).
- Text.Upper: `toUpperCase`/`toLowerCase` are modelled on ASCII letters
  only. Full Unicode case mapping, including length-changing mappings,
  is left out.
- Seqs.Sort: JavaScript compares UTF-16 code units, the model compares
  code points. The two orders differ only between astral characters and
  U+E000–U+FFFF.
- Strings are sequences of Unicode scalar values. Lone surrogates cannot
  occur, and the lengths in `ImageUploader.Shorten` and
  `OrdersTable.Initials` count characters, not UTF-16 code units.
- `JsNumber.Num` models a number input as a real or NaN; infinities and
  floating-point rounding are left out. Prices and stock in fetched
  records are reals.
- CreateProduct.ProductCreation.HandleCreateProduct: a `trigger()` that throws, and the catch's
  'Failed to validate form. Please try again.' toast, are not modelled;
  `trigger()` is taken to resolve (CreateProductContainer.tsx:65-67).
- CreateOrder.OrderCreation.HandleCreateOrder: the same for the order flow's catch and its
  toast (CreateOrderContainer.tsx:64-66).
- CreateProduct.NextStepEffects: the `console.error` logging in the lookup's catch is not
  modelled; the catch's toast is (CreateProductContainer.tsx:117-120).
- CreateOrder.CreateSubmission uses one instant for validation and for
  the generated id; the source reads the clock twice.

## Findings

| source | as written | input that shows it | evidently intended | confidence | as-written member | corrected member |
|---|---|---|---|---|---|---|
| app/dashboard/orders/page.tsx:35-37 | the cancelled card counts orders whose delivery status is 'cancelled' | one order with delivery status 'canceled', the schema's spelling (types/orders.ts:28): the card shows 0 | count the schema's 'canceled', so the four statuses add up to the total | high, not executed | OrderStats.CancelledOrders | OrderStats.CanceledOrders |
| app/dashboard/orders/create/_components/AddOrderPayment.tsx:75 | the delivery select offers 'cancelled' | pick "Cancelled" in the payment step: the delivery rule refuses it and the order never submits | offer the schema's 'canceled' (types/orders.ts:28), as the Order type spells it (types/orders.ts:58) | high, not executed | CreateOrder.CancelledChoiceRefused | CreateOrder.CorrectedChoicesAccepted |
