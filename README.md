# Product catalogue front-end — a Dafny model

This project models the core of an Angular front-end for a catalogue of
financial products. Each product has an id, a name, a description, a logo,
a release date and a revision date. The model covers:

- **the HTTP wrapper** (`BaseHttp`). Every verb targets
  `<baseUrl>/<endpoint>` with a JSON content type. `handleError` reduces
  every failure to one message.
- **the product service** (`ProductService`). Each domain operation becomes
  the request descriptor it hands to the wrapper.
- **the notification service** (`Notifications`). This is a class holding
  the list the subject publishes, the id counter and the ids whose
  auto-dismiss timer is pending. It shows, dismisses and expires toasts.
- **the product list** (`ProductList`). It loads the products and runs the
  case-insensitive search over name, description and id. It paginates on
  the client, asks for confirmation before a delete and formats dates in
  `DD/MM/YYYY` form.
- **the product form** (`ProductForm`). It models the six form controls
  with their validators, enabled/disabled state and touched/dirty flags.
  It also covers edit mode, the revision date computed one year after the
  release date, the asynchronous id-availability check, submit (create or
  update, with the disabled controls briefly enabled so that their values
  are read), reset and the error messages.
- **supporting models** (`Builtins` and `Dates`):
  - the JavaScript built-ins the core relies on: `trim`, `toLowerCase`,
    `includes`, `filter`, `slice`, `padStart` and `String(n)`;
  - calendar dates: reading `YYYY-MM-DD`, printing `toISOString().split('T')[0]`,
    and `setFullYear(getFullYear() + 1)` with JavaScript's roll-over of
    29 February.

Asynchronous work is split in two. The method that starts a request
returns the request it issues. Its `next`/`error` callbacks are separate
methods (`OnProductsLoaded`, `OnProductsLoadFailed`, `OnSaveSucceeded`, …),
which the environment calls later. Router navigation is recorded as a
sequence of route commands, and notifications are observable through the
service's state.

## Model

| member | source | states |
|---|---|---|
| BaseHttp.Url | src/app/core/services/base-http.service.ts:45-84 | the URL is the base, one `/`, then the endpoint, each piece recoverable by position |
| BaseHttp.UrlInjective | src/app/core/services/base-http.service.ts:45-84 | for one base URL, two endpoints give the same URL exactly when they are equal |
| BaseHttp.Get | src/app/core/services/base-http.service.ts:45-51 | GET request at the joined URL, no body, JSON content-type header |
| BaseHttp.Post | src/app/core/services/base-http.service.ts:56-62 | POST request at the joined URL carrying the data as body, JSON header |
| BaseHttp.Put | src/app/core/services/base-http.service.ts:67-73 | PUT request at the joined URL carrying the data as body, JSON header |
| BaseHttp.Delete | src/app/core/services/base-http.service.ts:78-84 | DELETE request at the joined URL, no body, JSON header |
| BaseHttp.ErrorMessage | src/app/core/services/base-http.service.ts:27-40 | a client-side ErrorEvent gives "Error: " plus its message; otherwise a non-empty server message wins; otherwise "Error <status>: <statusText>"; the message is never empty |
| BaseHttp.DefaultTextNeverChosen | src/app/core/services/base-http.service.ts:28-36 | the initial "unknown error" text survives only when the server itself sent exactly that text |
| BaseHttp.HandleError | src/app/core/services/base-http.service.ts:27-40 | handling an error always yields a failure, never a value, carrying the normalised message |
| BaseHttp.Respond | src/app/core/services/base-http.service.ts:45-84 | after `catchError(handleError)` a response passes unchanged and a failure becomes its normalised message |
| ProductService.GetProducts | src/app/features/products/services/product.service.ts:21-25 | GET at `<base>/products` with no body |
| ProductService.ProductsFromResponse | src/app/features/products/services/product.service.ts:21-25 | the list delivered is the envelope's `data`, unchanged; a failure keeps its message |
| ProductService.GetProductById | src/app/features/products/services/product.service.ts:30-32 | GET at `<base>/products/<id>` with no body |
| ProductService.CreateProduct | src/app/features/products/services/product.service.ts:37-39 | POST at `<base>/products` with the product as body |
| ProductService.UpdateProduct | src/app/features/products/services/product.service.ts:44-46 | PUT at `<base>/products/<id>` with the product as body |
| ProductService.DeleteProduct | src/app/features/products/services/product.service.ts:51-53 | DELETE at `<base>/products/<id>` with no body |
| ProductService.VerifyProductId | src/app/features/products/services/product.service.ts:58-60 | GET at `<base>/products/verification/<id>` with no body |
| ProductService.SingleProductUrl | src/app/features/products/services/product.service.ts:30-53 | get-by-id, update and delete address the same URL, which differs from the list URL |
| ProductService.LookupMeetsVerification | src/app/features/products/services/product.service.ts:30-60 | because the id is not escaped, looking up an id collides with the verification request for `other` exactly when the id is `verification/` + `other` |
| Notifications.MakeNotification | src/app/core/services/notification.service.ts:74-91 | the notification carries the given id, kind and message; a missing duration defaults to 3000 and a missing dismissible flag to true |
| Notifications.ShortcutOptions | src/app/core/services/notification.service.ts:26-69 | a shortcut always makes the toast dismissible and uses the caller's duration or the kind's default |
| Notifications.ShortcutDefaults | src/app/core/services/notification.service.ts:26-69 | with no duration given, success and info last 3000 ms, warning 4000 ms and error 5000 ms, and all are dismissible |
| Notifications.DismissRemovesExactly | src/app/core/services/notification.service.ts:96-100 | after dismissing an id, a notification remains exactly when it was there and has another id |
| Notifications.DismissKeepsOrder | src/app/core/services/notification.service.ts:96-100 | dismissal works piecewise on any split of the list, so the survivors keep their order |
| Notifications.DismissUnknown | src/app/core/services/notification.service.ts:96-100 | dismissing an id that is not shown leaves the list as it is |
| Notifications.DismissTwice | src/app/core/services/notification.service.ts:96-100 | dismissing the same id twice is dismissing it once |
| Notifications.DismissedIdIsGone | src/app/core/services/notification.service.ts:96-100 | no remaining notification has the dismissed id |
| Notifications.DismissKeepsIdsIncreasing | src/app/core/services/notification.service.ts:96-100 | dismissal keeps the ids strictly increasing along the list |
| Notifications.Without | src/app/core/services/notification.service.ts:96-100 | `dismiss`'s filter on the list; the Dismiss lemmas above state that it removes exactly the notifications with that id, keeps the order, is idempotent and keeps the ids increasing |
| Notifications.NotificationService.constructor | src/app/core/services/notification.service.ts:13-14 | the service starts with no notifications, counter 0, no pending timers, and has published the empty list once |
| Notifications.NotificationService.GenerateId | src/app/core/services/notification.service.ts:112-114 | each id is one more than the previous, hence fresh |
| Notifications.NotificationService.Show | src/app/core/services/notification.service.ts:74-91 | the new notification, built with the defaults, is appended with a fresh id larger than every shown id; a timer is pending for it exactly when its duration is positive; the new list is published |
| Notifications.NotificationService.Success | src/app/core/services/notification.service.ts:26-33 | shows a dismissible success toast lasting the given duration or 3000 ms |
| Notifications.NotificationService.Error | src/app/core/services/notification.service.ts:38-45 | shows a dismissible error toast lasting the given duration or 5000 ms |
| Notifications.NotificationService.Warning | src/app/core/services/notification.service.ts:50-57 | shows a dismissible warning toast lasting the given duration or 4000 ms |
| Notifications.NotificationService.Info | src/app/core/services/notification.service.ts:62-69 | shows a dismissible info toast lasting the given duration or 3000 ms |
| Notifications.NotificationService.Dismiss | src/app/core/services/notification.service.ts:96-100 | removes the notifications with that id, keeps the rest and publishes the result; counter and timers untouched |
| Notifications.NotificationService.DismissAll | src/app/core/services/notification.service.ts:105-107 | empties the list and publishes the empty list |
| Notifications.NotificationService.Expire | src/app/core/services/notification.service.ts:86-90 | a timer firing dismisses its id and is no longer pending |
| Builtins.Filter | src/app/features/products/components/product-list/product-list.component.ts:84-89 | `Array.filter`: never longer than the input; every kept item is in the input and passes the predicate |
| Builtins.FilterMembership | src/app/features/products/components/product-list/product-list.component.ts:84-89 | an item is kept exactly when it is in the input and passes the predicate |
| Builtins.FilterAppend | src/app/features/products/components/product-list/product-list.component.ts:84-89 | filtering a concatenation is concatenating the filtered parts (order is kept) |
| Builtins.FilterKeepsAll | src/app/features/products/components/product-list/product-list.component.ts:84-89 | when every item passes, the list comes back unchanged |
| Builtins.FilterIdempotent | src/app/features/products/components/product-list/product-list.component.ts:84-89 | filtering twice with the same predicate is filtering once |
| Builtins.RelativeIndex | src/app/features/products/components/product-list/product-list.component.ts:96-100 | `slice`'s index rule: in-range indices are kept, large ones clamp to the length, negative ones count from the end and clamp at 0 |
| Builtins.Slice | src/app/features/products/components/product-list/product-list.component.ts:96-100 | `Array.slice` never returns more items than the list has |
| Builtins.SliceNonNegative | src/app/features/products/components/product-list/product-list.component.ts:96-100 | for `0 <= start <= end` the slice is the items from `start` (clamped to the length) up to `end`, at most `end - start` of them, each at its original offset |
| Builtins.TrimStart | src/app/features/products/components/product-form/product-form.component.ts:176 | the result is a suffix of the input, does not start with white space, and only white space was cut |
| Builtins.TrimEnd | src/app/features/products/components/product-form/product-form.component.ts:176 | the result is a prefix of the input, does not end with white space, and only white space was cut |
| Builtins.TrimShape | src/app/features/products/components/product-form/product-form.component.ts:176 | `trim` returns a contiguous piece of the input with only white space on both sides of it |
| Builtins.TrimEmptyIff | src/app/features/products/components/product-list/product-list.component.ts:77 | a string trims to empty exactly when all its characters are white space |
| Builtins.Trim | src/app/features/products/components/product-list/product-list.component.ts:77-83 | `trim` is `TrimEnd` of `TrimStart`; `TrimShape` and `TrimEmptyIff` state that only surrounding white space is cut and that the result is empty exactly for an all-white-space string |
| Builtins.ToLowerChar | src/app/features/products/components/product-list/product-list.component.ts:84-89 | lower-casing a character never yields an upper-case ASCII letter and keeps white space as white space |
| Builtins.ToLower | src/app/features/products/components/product-list/product-list.component.ts:84-89 | `toLowerCase` keeps the length and maps each character on its own |
| Builtins.ToLowerIdempotent | src/app/features/products/components/product-list/product-list.component.ts:84-89 | lower-casing twice is lower-casing once |
| Builtins.ContainsIff | src/app/features/products/components/product-list/product-list.component.ts:87-89 | `includes` holds exactly when the term occurs at some position of the string |
| Builtins.ContainsEmpty | src/app/features/products/components/product-list/product-list.component.ts:87-89 | every string includes the empty string |
| Builtins.Contains | src/app/features/products/components/product-list/product-list.component.ts:87-89 | `includes`; `ContainsIff` states that it holds exactly when the term occurs at some position |
| Builtins.NatToString | src/app/features/products/components/product-list/product-list.component.ts:177-183 | `String(n)` of a natural is a non-empty digit string |
| Builtins.NatToStringValue | src/app/features/products/components/product-list/product-list.component.ts:177-183 | `String(n)` denotes `n` |
| Builtins.PadStart | src/app/features/products/components/product-list/product-list.component.ts:179-180 | a string already as wide is unchanged; a shorter one is widened to exactly the width and ends with the original |
| Dates.ParseIso | src/app/features/products/components/product-form/product-form.component.ts:103-104 | an accepted string always denotes a real calendar day with a four-digit year |
| Dates.FormatThenParse | src/app/features/products/components/product-form/product-form.component.ts:103-106 | printing a date in ISO form and reading it back gives the same date |
| Dates.ParseThenFormat | src/app/features/products/components/product-form/product-form.component.ts:103-106 | an accepted ISO string is the canonical printing of its date |
| Dates.IsoYear | src/app/features/products/components/product-form/product-form.component.ts:106 | the year as `toISOString` prints it: four zero-padded digits up to 9999, `+` and six digits beyond; the four-digit case is what `FormatThenParse` and `ParseThenFormat` rely on |
| Dates.FormatIso | src/app/features/products/components/product-form/product-form.component.ts:106 | `toISOString().split('T')[0]`; `FormatThenParse` and `ParseThenFormat` state that it is the inverse of `ParseIso` on four-digit years |
| Dates.NextYear | src/app/features/products/components/product-form/product-form.component.ts:105 | `setFullYear(year + 1)` yields a valid date in the next year |
| Dates.NextYearKeepsMonthAndDay | src/app/features/products/components/product-form/product-form.component.ts:105 | every day other than 29 February keeps its month and day |
| Dates.NextYearOfLeapDay | src/app/features/products/components/product-form/product-form.component.ts:105 | 29 February rolls over to 1 March of the next year |
| ProductList.NormalisedTermBlankness | src/app/features/products/components/product-list/product-list.component.ts:77-83 | the lower-cased trimmed term is empty exactly when the raw term is blank, so a non-blank term is never compared as "" |
| ProductList.SearchBlank | src/app/features/products/components/product-list/product-list.component.ts:77-81 | an all-white-space term shows every product, in order |
| ProductList.SearchMembership | src/app/features/products/components/product-list/product-list.component.ts:83-89 | for a non-blank term a product is shown exactly when it is loaded and its lower-cased name, description or id contains the lower-cased trimmed term |
| ProductList.SearchKeepsOrder | src/app/features/products/components/product-list/product-list.component.ts:84-89 | the search works piecewise on any split of the list, so shown products keep their loaded order |
| ProductList.SearchIdempotent | src/app/features/products/components/product-list/product-list.component.ts:76-91 | searching the result again with the same term changes nothing |
| ProductList.Search | src/app/features/products/components/product-list/product-list.component.ts:76-91 | the list `onSearch` shows; `SearchBlank`, `SearchMembership`, `SearchKeepsOrder` and `SearchIdempotent` state what it keeps and in which order |
| ProductList.PageContents | src/app/features/products/components/product-list/product-list.component.ts:96-100 | a page holds the items from `(page-1)*perPage` on, at most `perPage` of them, cut at the end of the list, in order |
| ProductList.PageOf | src/app/features/products/components/product-list/product-list.component.ts:96-100 | the slice `getPaginatedProducts` returns; `PageContents` and `PageEmptyIff` state its items and when it is empty |
| ProductList.TotalPagesIsCeiling | src/app/features/products/components/product-list/product-list.component.ts:105-107 | the page count is the least number of pages holding every item: 0 for no items, 1 when one page holds them all |
| ProductList.TotalPages | src/app/features/products/components/product-list/product-list.component.ts:105-107 | `Math.ceil(count / perPage)` on naturals; `TotalPagesIsCeiling` states that it is the least page count that holds every item |
| ProductList.ItemOnItsPage | src/app/features/products/components/product-list/product-list.component.ts:96-107 | item `i` appears on page `i / perPage + 1`, which is no later than the last page, at offset `i % perPage` |
| ProductList.PageEmptyIff | src/app/features/products/components/product-list/product-list.component.ts:96-107 | a page is empty exactly when it lies beyond the last page |
| ProductList.PageBefore | src/app/features/products/components/product-list/product-list.component.ts:119-123 | moves back by one, except that it stays put at or below page 1 and never leaves the pages |
| ProductList.PageAfter | src/app/features/products/components/product-list/product-list.component.ts:128-132 | moves forward by one, except that it stays put at or past the last page and never passes it |
| ProductList.DisplayDateFields | src/app/features/products/components/product-list/product-list.component.ts:177-183 | the displayed date reads back as two day digits, `/`, two month digits, `/`, and the year, each denoting the date's field |
| ProductList.FormatDateSwapsFields | src/app/features/products/components/product-list/product-list.component.ts:177-183 | an ISO `YYYY-MM-DD` string is shown as `DD/MM/YYYY` with the same digits |
| ProductList.FormatDate | src/app/features/products/components/product-list/product-list.component.ts:177-183 | `formatDate`: an unreadable string prints `NaN/NaN/NaN`; `DisplayDateFields` and `FormatDateSwapsFields` state that a readable ISO date shows as `DD/MM/YYYY` with the same fields |
| ProductList.ProductListComponent.constructor | src/app/features/products/components/product-list/product-list.component.ts:25-34 | empty lists, not loading, empty term, 5 items per page, page 1, no delete pending |
| ProductList.ProductListComponent.LoadProducts | src/app/features/products/components/product-list/product-list.component.ts:52-58 | marks loading and issues the list request; nothing else changes |
| ProductList.ProductListComponent.OnProductsLoaded | src/app/features/products/components/product-list/product-list.component.ts:59-64 | the loaded list replaces both the products and the shown list, and loading stops; the page is not reset |
| ProductList.ProductListComponent.OnProductsLoadFailed | src/app/features/products/components/product-list/product-list.component.ts:65-69 | appends the error toast "Error al cargar los productos: " plus the message, stops loading and keeps the lists |
| ProductList.ProductListComponent.SetSearchTerm | src/app/features/products/components/product-list/product-list.component.ts:28 | the search box's binding stores the term |
| ProductList.ProductListComponent.OnSearch | src/app/features/products/components/product-list/product-list.component.ts:76-91 | the shown list becomes the search of the loaded products by the current term, and the view returns to page 1 |
| ProductList.ProductListComponent.GetPaginatedProducts | src/app/features/products/components/product-list/product-list.component.ts:96-100 | at most one page of items, each at its offset from the page start; empty exactly when the page is past the last one |
| ProductList.ProductListComponent.GetTotalPages | src/app/features/products/components/product-list/product-list.component.ts:105-107 | the ceiling of shown items over page size: enough pages, no spare page, and 0 exactly for an empty list |
| ProductList.ProductListComponent.OnItemsPerPageChange | src/app/features/products/components/product-list/product-list.component.ts:112-114 | stores the new page size and returns to page 1 |
| ProductList.ProductListComponent.PreviousPage | src/app/features/products/components/product-list/product-list.component.ts:119-123 | the page becomes the one before, never below 1 |
| ProductList.ProductListComponent.NextPage | src/app/features/products/components/product-list/product-list.component.ts:128-132 | the page becomes the one after, never past the last page |
| ProductList.ProductListComponent.DeleteProduct | src/app/features/products/components/product-list/product-list.component.ts:137-140 | remembers the product and opens the confirmation; no request is made |
| ProductList.ProductListComponent.ConfirmDelete | src/app/features/products/components/product-list/product-list.component.ts:145-151 | with no product chosen nothing is sent; otherwise the delete request for its id |
| ProductList.ProductListComponent.OnDeleteSucceeded | src/app/features/products/components/product-list/product-list.component.ts:152-157 | appends the success toast, closes the modal, forgets the product and reloads |
| ProductList.ProductListComponent.OnDeleteFailed | src/app/features/products/components/product-list/product-list.component.ts:158-162 | appends the error toast with the message, closes the modal and forgets the product |
| ProductList.ProductListComponent.CancelDelete | src/app/features/products/components/product-list/product-list.component.ts:169-172 | closes the modal and forgets the product |
| ProductList.ProductListComponent.NavigateToForm | src/app/features/products/components/product-list/product-list.component.ts:195-197 | navigates to `/products/new` |
| ProductList.ProductListComponent.EditProduct | src/app/features/products/components/product-list/product-list.component.ts:202-204 | navigates to `/products/edit/<id>` |
| ProductForm.FieldNamed | src/app/features/products/components/product-form/product-form.component.ts:113 | looking a control up by name finds only the control of that name |
| ProductForm.FieldNamedIff | src/app/features/products/components/product-form/product-form.component.ts:113 | a name finds a control exactly when it is that control's name |
| ProductForm.ValidateMatchesTable | src/app/features/products/components/product-form/product-form.component.ts:61-89 | a value passes validation exactly when it meets its control's rules: id 3-10, name 5-100 and description 10-200 characters, logo and release date required, revision unconstrained |
| ProductForm.ValidationErrorsExclusive | src/app/features/products/components/product-form/product-form.component.ts:61-89 | a rejected value carries one kind of length error only (`required`, `minlength` or `maxlength`, never two at once), and the id-taken flag never comes from the validators |
| ProductForm.Validate | src/app/features/products/components/product-form/product-form.component.ts:61-89 | the validators of each control; `ValidateMatchesTable` states that they reject exactly the values outside the rule table, and `ValidationErrorsExclusive` that they raise one kind of error at a time |
| ProductForm.ErrorText | src/app/features/products/components/product-form/product-form.component.ts:122-135 | the message follows the priority required, then minimum, then maximum length (with the limit), then id taken |
| ProductForm.ErrorTextIffErrors | src/app/features/products/components/product-form/product-form.component.ts:122-135 | the message is empty exactly when there is no error |
| ProductForm.GetErrorMessage | src/app/features/products/components/product-form/product-form.component.ts:120-136 | an unknown control name gives ""; otherwise the message of that control's errors |
| ProductForm.ShownErrorHasMessage | src/app/features/products/components/product-form/product-form.component.ts:112-136 | whenever a field is flagged as having an error, its message is non-empty |
| ProductForm.HasError | src/app/features/products/components/product-form/product-form.component.ts:112-115 | `hasError`: the control exists, is invalid, and is dirty or touched; `ShownErrorHasMessage`, `TouchedShowsAllErrors` and `ResetHidesErrorsButBlocksSubmit` state when it holds |
| ProductForm.IdMessages | src/app/features/products/components/product-form/product-form.component.ts:65-67 | the id shows "Este campo es requerido!" when empty, "Mínimo 3 caracteres" below 3, "Máximo 10 caracteres" above 10, nothing otherwise |
| ProductForm.InitialFormControls | src/app/features/products/components/product-form/product-form.component.ts:61-89 | every control starts empty, untouched and pristine, and only the revision date is disabled |
| ProductForm.WithValue | src/app/features/products/components/product-form/product-form.component.ts:147-154 | setting a value keeps the control's flags and re-validates it when enabled |
| ProductForm.Enabled | src/app/features/products/components/product-form/product-form.component.ts:206-210 | enabling keeps the value and runs validation |
| ProductForm.Disabled | src/app/features/products/components/product-form/product-form.component.ts:157 | disabling keeps the value and clears the errors |
| ProductForm.EnableThenDisable | src/app/features/products/components/product-form/product-form.component.ts:206-219 | enabling then disabling a disabled control restores it exactly |
| ProductForm.AllTouchedControls | src/app/features/products/components/product-form/product-form.component.ts:268-273 | marking the form touched changes only the touched flag of each control |
| ProductForm.TouchedShowsAllErrors | src/app/features/products/components/product-form/product-form.component.ts:197-201 | after an invalid submit, every invalid control is flagged as having an error |
| ProductForm.ResetControl | src/app/features/products/components/product-form/product-form.component.ts:259-263 | reset leaves a control empty, untouched, pristine, with its enabled state and consistent errors |
| ProductForm.ResetFormControls | src/app/features/products/components/product-form/product-form.component.ts:259-263 | resetting the form resets every control |
| ProductForm.ResetForm | src/app/features/products/components/product-form/product-form.component.ts:259-263 | `reset()` with `markAsUntouched` and `markAsPristine`; `ResetFormControls` states that it resets every control |
| ProductForm.ResetHidesErrorsButBlocksSubmit | src/app/features/products/components/product-form/product-form.component.ts:259-263 | after a reset no field shows an error, yet the form is invalid and cannot be submitted |
| ProductForm.UpdateAfterResetClearsBodyId | src/app/features/products/components/product-form/product-form.component.ts:206-224 | after a reset the disabled id stays disabled and empty, so an edit-mode update carries an empty body id while its URL still names the edited product |
| ProductForm.FormValue | src/app/features/products/components/product-form/product-form.component.ts:213 | `form.value` holds exactly the enabled controls, each with its value |
| ProductForm.EnabledFormValue | src/app/features/products/components/product-form/product-form.component.ts:205-213 | with every control enabled, the value read is the payload of all six fields |
| ProductForm.Payload | src/app/features/products/components/product-form/product-form.component.ts:205-219 | all six control values, disabled ones included; `EnabledFormValue` states that it is what `form.value` reads once every control is enabled |
| ProductForm.LoadedFormSubmitsProduct | src/app/features/products/components/product-form/product-form.component.ts:147-154 | a form holding a product's fields submits that product unchanged |
| ProductForm.CalculateRevisionDate | src/app/features/products/components/product-form/product-form.component.ts:103-107 | a revision date is produced exactly when the release date is readable |
| ProductForm.RevisionIsOneYearLater | src/app/features/products/components/product-form/product-form.component.ts:103-107 | for any release date other than 29 February (and before year 9999), the revision date is the ISO printing of the same day and month one year later, and it reads back as that date |
| ProductForm.RevisionOfLeapDay | src/app/features/products/components/product-form/product-form.component.ts:103-107 | a release on 29 February gets its revision on 1 March of the next year |
| ProductForm.CheckedIdIsAcceptable | src/app/features/products/components/product-form/product-form.component.ts:171-177 | an id that reaches the backend check is, once trimmed, non-empty, free of surrounding white space, and of valid length |
| ProductForm.InitialFormIsBlocked | src/app/features/products/components/product-form/product-form.component.ts:61-89 | the initial form is consistent and invalid, so it cannot be submitted empty |
| ProductForm.InitialForm | src/app/features/products/components/product-form/product-form.component.ts:61-89 | the group `initializeForm` builds; `InitialFormControls` and `InitialFormIsBlocked` state its controls and that it cannot be submitted |
| ProductForm.FormInvalid | src/app/features/products/components/product-form/product-form.component.ts:197 | `productForm.invalid`: some enabled control has errors; `InitialFormIsBlocked` and `ResetHidesErrorsButBlocksSubmit` state when it holds |
| ProductForm.AfterReleaseDateChange | src/app/features/products/components/product-form/product-form.component.ts:92-97 | only the revision value can change; a non-empty readable release date sets it to the computed revision; an empty or unreadable one changes nothing |
| ProductForm.LoadedFormControls | src/app/features/products/components/product-form/product-form.component.ts:146-157 | after loading, every control holds the product's field; the id is disabled, the others are set and re-validated |
| ProductForm.LoadedForm | src/app/features/products/components/product-form/product-form.component.ts:146-157 | the form after the product is patched in and the id is disabled; `LoadedFormControls` states each control, and `LoadedFormSubmitsProduct` that it submits the product |
| ProductForm.ProductFormComponent.constructor | src/app/features/products/components/product-form/product-form.component.ts:23-26 | starts in create mode with no id and not submitting; the form is already the initial one (see Left out) |
| ProductForm.ProductFormComponent.CheckEditMode | src/app/features/products/components/product-form/product-form.component.ts:50-53 | stores the route id; edit mode is on exactly when it is present and non-empty |
| ProductForm.ProductFormComponent.InitializeForm | src/app/features/products/components/product-form/product-form.component.ts:58-98 | builds the initial form |
| ProductForm.ProductFormComponent.NgOnInit | src/app/features/products/components/product-form/product-form.component.ts:38-45 | builds the form, sets the mode, and requests the product exactly in edit mode |
| ProductForm.ProductFormComponent.OnReleaseDateChanged | src/app/features/products/components/product-form/product-form.component.ts:92-97 | the subscription applies the revision update and keeps the form invariant |
| ProductForm.ProductFormComponent.SetValue | src/app/features/products/components/product-form/product-form.component.ts:147-154 | sets and re-validates one control; setting the release date also fires its subscription |
| ProductForm.ProductFormComponent.Input | src/app/features/products/components/product-form/product-form.component.ts:61-97 | typing into an enabled control stores the value, marks it dirty and validates it; a release date also fires the subscription |
| ProductForm.ProductFormComponent.Blur | src/app/features/products/components/product-form/product-form.component.ts:112-115 | leaving a control marks it touched and changes nothing else |
| ProductForm.ProductFormComponent.PatchValue | src/app/features/products/components/product-form/product-form.component.ts:147-154 | patching sets every control to the product's field, the release date firing its subscription; the result is the loaded form up to the id's disabled state |
| ProductForm.ProductFormComponent.OnProductLoaded | src/app/features/products/components/product-form/product-form.component.ts:146-158 | the form becomes the loaded form of the product, with the id disabled |
| ProductForm.ProductFormComponent.OnProductLoadFailed | src/app/features/products/components/product-form/product-form.component.ts:159-162 | appends the error toast "Error al cargar el producto: " plus the message and navigates to `/` |
| ProductForm.ProductFormComponent.ValidateId | src/app/features/products/components/product-form/product-form.component.ts:169-183 | the verification request is issued exactly in create mode for a non-empty id whose trimmed length is 3-10, and it carries the trimmed id |
| ProductForm.ProductFormComponent.OnIdVerified | src/app/features/products/components/product-form/product-form.component.ts:185-190 | an answer of `true` replaces the id's errors by id-taken; false or a failure leaves the form as it was |
| ProductForm.ProductFormComponent.MarkFormGroupTouched | src/app/features/products/components/product-form/product-form.component.ts:268-273 | every control is marked touched, one after another |
| ProductForm.ProductFormComponent.ReadPayload | src/app/features/products/components/product-form/product-form.component.ts:205-219 | the payload holds all six fields, disabled ones included, and the controls end exactly as they were |
| ProductForm.ProductFormComponent.OnSubmit | src/app/features/products/components/product-form/product-form.component.ts:196-254 | an invalid form is marked touched, one error toast is shown and nothing is sent; a valid one starts submitting with the full payload as an update for the edited id, or as a create, and the controls stay as they were |
| ProductForm.ProductFormComponent.OnSaveSucceeded | src/app/features/products/components/product-form/product-form.component.ts:227-231 | shows "Producto actualizado exitosamente" or "Producto creado exitosamente", stops submitting and returns to `/` |
| ProductForm.ProductFormComponent.OnSaveFailed | src/app/features/products/components/product-form/product-form.component.ts:232-235 | shows the update or create error toast with the message and stops submitting |
| ProductForm.ProductFormComponent.OnReset | src/app/features/products/components/product-form/product-form.component.ts:259-263 | the form becomes its reset, keeping the form invariant |

## Left out

- HTTP transport, RxJS observables and `takeUntil(destroy$)`: each request is returned as a descriptor, and its callbacks are separate methods. Unsubscribing on destroy (`ngOnDestroy`) has no counterpart, since nothing runs concurrently in the model.
- Notifications.NotificationService.GenerateId: the source builds the string `notification-<counter>-<Date.now()>`. The model keeps only the counter, so ids are naturals and the clock is left out. The counter alone already makes every id fresh.
- Notifications.NotificationService.Show: `setTimeout` is not modelled as time. A positive duration records a pending timer, and the event method `Expire` stands for the timer firing.
- Dates.ParseIso: only the strict `YYYY-MM-DD` form a date input produces is read. The model leaves out `new Date`'s lenient parsing of other strings, time zones and times of day, and any value that is not a string.
- Dates.IsoYear: the expanded-year form that `toISOString` uses beyond year 9999 is reached only by the revision of a release date in year 9999 (`+010000-MM-DD`). `ParseIso` does not read that form back.
- Builtins.ToLowerChar: lower-cases ASCII and Latin-1 letters only. Other Unicode case mappings and multi-character foldings are not modelled.
- String lengths count characters. JavaScript counts UTF-16 code units, which differ only for characters outside the Basic Multilingual Plane.
- ProductForm.ResetControl: `reset()` sets the values to `null`, and the model writes "". The validators treat "" and `null` alike. The payload does not: an update submitted after a reset in edit mode carries "" as its id where the source sends `null` (`UpdateAfterResetClearsBodyId`).
- ProductForm.ProductFormComponent.constructor: the source leaves `productForm` undefined until `ngOnInit` calls `initializeForm`. The model builds the initial form at construction; `NgOnInit` rebuilds it before anything reads it.
- Notifications: durations are whole numbers (`int`). The source types them as JavaScript `number`, so a fractional duration is not modelled; every call site passes a whole number.
- ProductList.ProductListComponent.OnItemsPerPageChange: requires a positive page size. The selector offers only positive sizes, and the source does not handle zero (it would divide by zero).
- ProductList.ProductListComponent.OnProductsLoaded: reloading does not clamp the current page, exactly as in the source. A page past the end then shows nothing (`PageEmptyIff`).
- `trackByProductId`, `console.error` in `validateId`, change detection, the presentational components (loading indicator, toast view, confirmation modal) and the route table are not part of this model.
- `initializeForm` computes an unused `today`. It is left out.
- `getHeaders` is the constant `JsonHeaders`.
- `Object.keys` is taken in the order the controls are declared, which is the order `MarkFormGroupTouched` visits.
- The component methods require the states that the Angular lifecycle guarantees:
  - `OnProductLoaded` runs only in edit mode, because only edit mode loads a product;
  - `OnIdVerified` runs only in create mode, because only create mode verifies;
  - `Input` applies to an enabled control, because a disabled input cannot be typed into.
