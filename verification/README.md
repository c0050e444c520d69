# UV admin dashboard, modelled in Dafny

This project models the client-side logic of the UV admin dashboard, a React
application for running a shop's catalogue, orders, transactions and users.
The dashboard has no protocol or numeric engine. What it does have is a good
deal of deterministic state handling, and that is what is modelled here:

- the three input validators (username, email, password);
- the Redux auth slice, the edit-product slice and the selectors over them;
- the product forms (`ProductForm`, `AddProduct`, `EditProduct`), which cover:
  - combination rows kept unique;
  - image and video lists with count and size caps and de-duplication;
  - the main-image index;
  - grouping rows into per-colour property groups for the submitted payload;
- the property catalogue editor (`AddProperties`), with its optimistic
  updates and their reverts;
- the filter chains, paging, selection and optimistic deletes of the product,
  order and transaction tables;
- the sidebar's active-link and collapsed-group state, and the prop checks of
  a sidebar entry;
- the user table's selection and e-mail status.

Pure code (validators, selectors, filter chains, list transforms) is modelled
as functions with lemmas. Component state that handlers update step by step
is modelled as a class whose methods carry `modifies` clauses; the loops of
the source (upload de-duplication, the `validateForm` scans, the grouping
`reduce`, the populate `forEach`, the route effect, the sub-menu check, the
bulk-delete sort) are methods with loop invariants. An API outcome, a
confirmation dialog, an object URL or an image's load result enters the model
as a parameter.

The modules are:

| module | models |
|---|---|
| `Text` | whitespace as `String.prototype.trim` sees it, `trim`, ASCII `toLowerCase`, `includes`, decimal `toString`, `parseInt` |
| `Lists` | `filter`, subsequences, removal by index or value, toggling, paging |
| `ValidateFunctions` | `src/helpers/validateFunctions.js` |
| `AuthSlice`, `EditProductSlice`, `Selectors` | `src/redux/` |
| `Catalog` | combination rows, quantities, grouping by colour and flattening back |
| `ObjectOrder` | the order in which `Object.values` lists the grouping object's properties, and the `properties` a submit sends |
| `Media` | upload signatures, de-duplication, the main image after a removal |
| `FormChecks` | the shared `validateForm` logic of the three product forms |
| `ProductFormPage`, `AddProductPage`, `EditProductPage` | the three product forms; `EditProduct` repeats the handlers of `AddProduct` line for line, so both pages use the class `AddProductPage.ColorSizeForm` |
| `AddPropertiesPage` | `src/pages/AddProperties/AddProperties.jsx` |
| `TableFilters`, `ProductManagementsPage`, `OrderManagementsPage`, `TransactionManagementsPage` | the three tables |
| `SidebarLinkView`, `SidebarNav` | `src/components/Sidebar/` |
| `UserManagementsPage` | `src/pages/UserManagements/UserManagements.jsx` |

## Model

| member | source | states |
|---|---|---|
| ValidateFunctions.ValidateUsername | src/helpers/validateFunctions.js:4-20 | a value that is not text gets the type message; an accepted name is text of length 3 to 30 matching `^[a-zA-Z0-9]+$` |
| ValidateFunctions.UsernameAcceptedIff | src/helpers/validateFunctions.js:4-20 | a name is accepted exactly when it is 3 to 30 characters long and every character is an ASCII letter or digit |
| ValidateFunctions.UsernameCheckOrder | src/helpers/validateFunctions.js:9-13 | a blank name gets "cannot be empty" before any length check; the lengths are those of the untrimmed name, minimum before maximum |
| ValidateFunctions.PaddedUsernameIsNotAlphanumeric | src/helpers/validateFunctions.js:12-17 | a name of acceptable length with a leading space reaches the alphanumeric check and fails it, because the length checks do not trim |
| ValidateFunctions.ValidateEmail | src/helpers/validateFunctions.js:23-35 | a value that is not text gets the type message; an accepted address matches `^[^\s@]+@[^\s@]+\.[^\s@]+$` |
| ValidateFunctions.EmailPatternIffShape | src/helpers/validateFunctions.js:31-32 | the pattern holds exactly when there is no whitespace, exactly one '@' with something before it, and a '.' after it with a character on each side |
| ValidateFunctions.BlankEmailIsEmpty | src/helpers/validateFunctions.js:28 | a blank address gets "cannot be empty", not the format message |
| ValidateFunctions.EmailAcceptedIff | src/helpers/validateFunctions.js:23-35 | an address is accepted exactly when it has that simple shape |
| ValidateFunctions.ValidatePassword | src/helpers/validateFunctions.js:38-53 | under 8 characters gets the minimum message and over 40 the maximum, both before the pattern; an accepted password is 8 to 40 long and matches the pattern |
| ValidateFunctions.PasswordAcceptedIff | src/helpers/validateFunctions.js:43-50 | accepted exactly when 8 to 40 long, with a lowercase letter, an uppercase letter, a digit and one of `@$!%*?&.`, and no other characters |
| Text.TrimEmptyIffBlank | src/helpers/validateFunctions.js:9 | `trim()` gives the empty string exactly when the text is all whitespace |
| AuthSlice.StoredToken | src/redux/authSlice.js:5-8 | the initial token is the stored 'authToken' value when present and not empty, and null otherwise |
| AuthSlice.AuthStore.constructor | src/redux/authSlice.js:5-8 | the store starts with the stored token, no user, and the storage unchanged |
| AuthSlice.WithCredentials | src/redux/authSlice.js:14-18 | the token and user become the payload's; storage is unchanged |
| AuthSlice.AuthStore.SetCredentials | src/redux/authSlice.js:14-18 | the new state is the old one with the payload's credentials |
| AuthSlice.LoggedOut | src/redux/authSlice.js:19-23 | token and user become null; the 'authToken' entry is removed and every other storage entry is kept |
| AuthSlice.AuthStore.Logout | src/redux/authSlice.js:19-23 | the new state is the logged-out form of the old one |
| AuthSlice.LogoutIdempotent | src/redux/authSlice.js:19-23 | logging out twice is the same as logging out once |
| AuthSlice.CredentialsThenLogout | src/redux/authSlice.js:14-23 | setting credentials and then logging out is the same as logging out |
| Selectors.SelectAuthToken | src/redux/selectors.js:3 | returns the token unchanged |
| Selectors.SelectUser | src/redux/selectors.js:5 | returns the user unchanged |
| Selectors.SelectIsAuthenticated | src/redux/selectors.js:4 | `!!token`: false exactly for a missing and for an empty token |
| Selectors.AuthenticatedIffToken | src/redux/selectors.js:4 | authenticated exactly when the token is present and not empty |
| Selectors.InitiallyAuthenticatedIffStored | src/redux/selectors.js:4 | the initial state is authenticated exactly when storage holds a non-empty 'authToken' |
| Selectors.LoggedOutIsNotAuthenticated | src/redux/selectors.js:4 | after logout the state is not authenticated |
| Selectors.CredentialsAuthenticate | src/redux/selectors.js:4 | after setting a non-empty token the state is authenticated |
| EditProductSlice.Initial | src/redux/editProductSlice.js:6-10 | no product, not loading, no error |
| EditProductSlice.WithProduct | src/redux/editProductSlice.js:12-16 | stores the product and clears loading and error |
| EditProductSlice.Cleared | src/redux/editProductSlice.js:17-19 | drops the product only; loading and error are kept |
| EditProductSlice.Started | src/redux/editProductSlice.js:20-23 | sets loading, clears the error, keeps the product |
| EditProductSlice.Succeeded | src/redux/editProductSlice.js:24-27 | clears loading, replaces the product, keeps the error |
| EditProductSlice.Failed | src/redux/editProductSlice.js:28-31 | clears loading, records the error, keeps the product |
| EditProductSlice.RequestSettles | src/redux/editProductSlice.js:20-31 | after a start and then a success or a failure, loading is off; a success leaves the new product and no error, a failure the old product and the error |
| EditProductSlice.ClearKeepsRequest | src/redux/editProductSlice.js:17-23 | clearing during a request keeps it loading without error, and clearing twice is clearing once |
| EditProductSlice.EditProductStore.constructor | src/redux/editProductSlice.js:6-10 | the store starts in `Initial()`: no product, not loading, no error |
| EditProductSlice.EditProductStore.SetProductForEdit | src/redux/editProductSlice.js:12-16 | the store's new state is `WithProduct` of the old one |
| EditProductSlice.EditProductStore.ClearProduct | src/redux/editProductSlice.js:17-19 | the store's new state is `Cleared` of the old one |
| EditProductSlice.EditProductStore.UpdateProductStart | src/redux/editProductSlice.js:20-23 | the store's new state is `Started` of the old one |
| EditProductSlice.EditProductStore.UpdateProductSuccess | src/redux/editProductSlice.js:24-27 | the store's new state is `Succeeded` of the old one |
| EditProductSlice.EditProductStore.UpdateProductFailure | src/redux/editProductSlice.js:28-31 | the store's new state is `Failed` of the old one |
| Catalog.QuantityOf | src/pages/AddProduct/AddProduct.jsx:374 | `parseInt(text, 10)` of the quantity input: NaN exactly when the text has no leading integer, its value otherwise |
| Catalog.QuantityOfDecimal | src/pages/AddProduct/AddProduct.jsx:374 | a quantity typed as a decimal number is read back as that number and is valid |
| Catalog.GroupCombinations | src/pages/AddProduct/AddProduct.jsx:177-181 | the `reduce` over the rows fails (the `push` throws) exactly when some row's colour is a property every object inherits, such as "constructor"; otherwise its object holds `GroupByColor`, in creation order, which is a grouping of the rows |
| Catalog.GroupByColorGroups | src/pages/AddProduct/AddProduct.jsx:177-181 | the grouping has distinct colours and no empty group, each group holds exactly its colour's entries in row order, and every row's colour has a group |
| Catalog.AddToExistingGroup | src/pages/AddProduct/AddProduct.jsx:178-179 | pushing a row onto the existing group of its colour keeps a grouping of the longer list |
| Catalog.AddNewGroup | src/pages/AddProduct/AddProduct.jsx:178-179 | opening a group for a new colour keeps a grouping of the longer list |
| Catalog.GroupFlattenRoundTrip | src/pages/EditProduct/EditProduct.jsx:93-98 | flattening stored groups with distinct colours and no empty group, then running the `reduce` on the rows again, rebuilds the same groups in the same creation order |
| Catalog.SingleColorGrouping | src/pages/ProductForm/ProductForm.jsx:266-271 | rows that all carry one colour group into a single group holding their entries in order, or none when there are no rows |
| Catalog.GroupAppendFreshColor | src/pages/AddProduct/AddProduct.jsx:177-181 | rows of a colour not seen before, appended to a list, add one property for them, created last in the `reduce`'s object |
| ObjectOrder.CanonicalIsDecimal | src/pages/AddProduct/AddProduct.jsx:208 | a colour that is an array index (canonical decimal digits) is the decimal text of its own value |
| ObjectOrder.DistinctIndexKeys | src/pages/AddProduct/AddProduct.jsx:208 | two different array-index colours have different numeric values, so their order under `Object.values` is fixed |
| ObjectOrder.SortAscending | src/pages/AddProduct/AddProduct.jsx:208 | the array-index properties are listed in ascending numeric order |
| ObjectOrder.SortOfAscending | src/pages/AddProduct/AddProduct.jsx:208 | index properties already ascending are listed as they are |
| ObjectOrder.ObjectValuesOrder | src/pages/AddProduct/AddProduct.jsx:208 | `Object.values` lists every group once: the array-index colours first, in ascending numeric order, then the other colours in creation order |
| ObjectOrder.ObjectValuesIdempotent | src/pages/AddProduct/AddProduct.jsx:208 | listing groups already in that order again changes nothing |
| ObjectOrder.NamedColorsKeepOrder | src/pages/AddProduct/AddProduct.jsx:208 | with no array-index colour the properties are sent in creation order |
| ObjectOrder.SentProperties | src/pages/AddProduct/AddProduct.jsx:177-208 | nothing is sent exactly when some colour is inherited; otherwise `Object.values` of the grouping |
| ObjectOrder.SentGroupsAreGrouping | src/pages/AddProduct/AddProduct.jsx:177-208 | whatever the order, the properties sent are a grouping of the rows: distinct colours, no empty group, each group exactly its colour's entries in row order |
| ObjectOrder.IndexColorsSentAscending | src/pages/AddProduct/AddProduct.jsx:177-208 | rows of colour "2" then "1" are sent as the group of "1" before that of "2", not in first-appearance order |
| ObjectOrder.SentRoundTrip | src/pages/EditProduct/EditProduct.jsx:93-98 | flattening stored groups (distinct, non-inherited colours, none empty) and sending the rows again gives `Object.values` of the stored groups, so exactly the stored groups when they are already in that order |
| Media.SelectNewFiles | src/pages/AddProduct/AddProduct.jsx:248-259 | the loop keeps, in input order, each file whose name-size-type signature is neither among the existing files nor an earlier file of the batch; it reports a duplicate exactly when some file was skipped |
| Media.FreshFilesInOrder | src/pages/AddProduct/AddProduct.jsx:251-259 | the kept files are a subsequence of the batch |
| Media.FreshFilesUnique | src/pages/AddProduct/AddProduct.jsx:251-259 | no kept file has an existing signature, and the kept files' signatures are distinct |
| Media.FreshFilesCover | src/pages/AddProduct/AddProduct.jsx:251-259 | every file of the batch has a signature that was existing or is kept |
| Media.FreshFilesKeepsDistinct | src/pages/AddProduct/AddProduct.jsx:251-259 | a batch of new and mutually distinct files is kept whole |
| Media.AppendFreshKeepsSignaturesUnique | src/pages/AddProduct/AddProduct.jsx:261-269 | appending the kept files keeps every signature in the list unique |
| Media.RemoveKeepsSignaturesUnique | src/pages/AddProduct/AddProduct.jsx:317 | removing one file keeps the signatures unique |
| Media.MainImageAfterRemoval | src/pages/AddProduct/AddProduct.jsx:320-324 | after a removal the main image stays null or in range; one that was not removed still points to the same image; a null one stays null |
| FormChecks.SaleValue | src/pages/AddProduct/AddProduct.jsx:204-213 | an empty sale is sent as 0, and a sale that passed validation is between 0 and 100 |
| FormChecks.RowMessage | src/pages/AddProduct/AddProduct.jsx:138-153 | the row message is empty exactly for a complete row; an invalid quantity's message wins over a missing size's, which wins over a missing colour's |
| FormChecks.LastIncomplete | src/pages/AddProduct/AddProduct.jsx:138-153 | finds the last incomplete row of a prefix, or none when every row is complete |
| FormChecks.CombinationErrorNamesLastRow | src/pages/AddProduct/AddProduct.jsx:134-153 | the combination message is empty exactly when there is a row and all rows are complete; otherwise it is the message of the last incomplete row |
| FormChecks.CheckCombinations | src/pages/AddProduct/AddProduct.jsx:134-153 | the `forEach` computes that message, and the rows are valid exactly when it is empty |
| FormChecks.ScanIsLastRowMessage | src/pages/ProductForm/ProductForm.jsx:229-240 | the left-to-right scan, where each incomplete row overwrites the message, leaves the message of the last incomplete row |
| FormChecks.ValidationErrors | src/pages/AddProduct/AddProduct.jsx:109-166 | no error is set exactly when the name is not blank, the description is present, price and sale are valid, there is a row and every row is complete, and there are images and tags |
| FormChecks.Validate | src/pages/AddProduct/AddProduct.jsx:109-166 | computes those errors; the form is valid exactly when none is set |
| ProductFormPage.ProductForm.constructor | src/pages/ProductForm/ProductForm.jsx:35-57 | every field starts as `ClearedContents` gives it (empty texts, rows and lists, no main image, no row being edited, active), with no errors |
| ProductFormPage.ProductForm.SetActive | src/pages/ProductForm/ProductForm.jsx:606-609 | the "active" checkbox sets `isActive` to its checked state and changes nothing else |
| ProductFormPage.ProductForm.ValidateForm | src/pages/ProductForm/ProductForm.jsx:201-254 | the errors are those of the shared checks without a colour test, and the form is valid exactly when no error is set |
| ProductFormPage.ProductForm.AddCombination | src/pages/ProductForm/ProductForm.jsx:485-513 | a missing size or quantity, or a size already present, is refused with its message and no change; otherwise the row is appended and the inputs cleared; sizes stay distinct |
| ProductFormPage.ProductForm.RemoveCombination | src/pages/ProductForm/ProductForm.jsx:516-521 | drops exactly the row at the index; the "at least one" error is set only when the list was already empty before the call |
| ProductFormPage.ProductForm.SetQuantityText | src/pages/ProductForm/ProductForm.jsx:875-879 | the quantity input replaces only that row's quantity |
| ProductFormPage.ProductForm.SaveCombination | src/pages/ProductForm/ProductForm.jsx:529-535 | only the quantity at the index changes, parsed again; the edit mode ends |
| ProductFormPage.WithQuantityKeepsSizes | src/pages/ProductForm/ProductForm.jsx:529-535 | changing a quantity keeps the length, the sizes and their distinctness |
| ProductFormPage.Screen | src/pages/ProductForm/ProductForm.jsx:351-371 | a file loads exactly when it is at most 5 MiB, its name is not a known key or url, and it loads |
| ProductFormPage.ScreenBatch | src/pages/ProductForm/ProductForm.jsx:348-386 | the loop over the batch adds exactly the screened images, keeps the last size or duplicate message in batch order, and the last load-failure message in the order the loads settle (`onerror`, lines 365-371), which is some failing file's message exactly when one fails |
| ProductFormPage.NoMessageIffNoFailure | src/pages/ProductForm/ProductForm.jsx:351-371 | no message of a kind is left exactly when no file fails that way |
| ProductFormPage.LastMessageIsLastFailure | src/pages/ProductForm/ProductForm.jsx:351-371 | a message left is that of the last file failing that way |
| ProductFormPage.LateMessageOfSomeFailure | src/pages/ProductForm/ProductForm.jsx:365-371 | whatever order the loads settle in, a load-failure message is left exactly when some file of the batch fails to load, and it is one of those files' messages |
| ProductFormPage.LoadedImagesAreSmall | src/pages/ProductForm/ProductForm.jsx:351-355 | every added image is at most 5 MiB |
| ProductFormPage.ScreenedOutNeverAdded | src/pages/ProductForm/ProductForm.jsx:351-362 | a file with a known name or too large is never added |
| ProductFormPage.BatchDuplicatesPass | src/pages/ProductForm/ProductForm.jsx:358-362 | same-name files within one batch are not detected: a batch of small, unknown, loading files is added whole |
| ProductFormPage.UploadKeepsInvariants | src/pages/ProductForm/ProductForm.jsx:338-390 | an upload keeps at most 10 new images, keeps the main image null or in range, keeps the old images as a prefix, and a batch over the free slots only sets the error |
| ProductFormPage.ProductForm.ImageUpload | src/pages/ProductForm/ProductForm.jsx:338-390 | the new images, main image and errors are those of the upload step |
| ProductFormPage.ProductForm.RemoveImage | src/pages/ProductForm/ProductForm.jsx:441-463 | drops the image at the index, adjusts the main image and keeps it in range, adds an existing image's key to the deleted list in edit mode, and sets the error when no image is left |
| ProductFormPage.ProductForm.ToggleTag | src/pages/ProductForm/ProductForm.jsx:940-943 | checking appends the tag, unchecking removes every copy of it |
| ProductFormPage.ProductForm.ClearForm | src/pages/ProductForm/ProductForm.jsx:174-190 | every field goes back to its initial value as `ClearedContents` gives it, `isActive` to true, and the errors are cleared; the row being edited is kept, as the code does not reset it |
| ProductFormPage.ProductForm.Payload | src/pages/ProductForm/ProductForm.jsx:266-306 | the payload is `IsPayload` of the form: the trimmed name, the HTML description as it is, the parsed price, an empty sale as 0, one group of colour "const" holding every row's entry in order (none without rows), the tags, the main image, the first video as main video, only the new images and videos as files, `id` and `deletedImages` in edit mode only, and `isActive` |
| ProductFormPage.ConstColorSent | src/pages/ProductForm/ProductForm.jsx:266-282 | "const" is neither inherited nor an array index, so `Object.values` sends its one group as built |
| ProductFormPage.ProductForm.Submit | src/pages/ProductForm/ProductForm.jsx:257-335 | the result is valid exactly when `validateForm` finds no error, and the form is sent exactly then, with the payload of the fields it had (`IsPayload`), its one group holding every row; the errors are those `validateForm` computes; a successful request leaves the fields as `clearForm` does, otherwise every other field is kept |
| AddProductPage.ColorSizeForm.constructor | src/pages/AddProduct/AddProduct.jsx:25-50 | every field starts empty as `ClearedContents` gives it, including the colour, which nothing ever sets, with no errors |
| AddProductPage.ColorSizeForm.ValidateForm | src/pages/AddProduct/AddProduct.jsx:109-166 | the errors are those of the shared checks with the colour test, and the form is valid exactly when no error is set; src/pages/EditProduct/EditProduct.jsx:130-187 is the same code |
| AddProductPage.ColorSizeForm.AddCombination | src/pages/AddProduct/AddProduct.jsx:344-380 | a missing colour, size or quantity is refused with "fill in all details"; a taken colour-size pair with its message; otherwise the row is appended and the inputs cleared; pairs stay distinct; on the edit page (src/pages/EditProduct/EditProduct.jsx:369-401, the same code) the colour is likewise always empty, so every attempt is refused; the page invariant `ListsValid` (caps, no duplicate signatures, main image in range, distinct pairs) is kept |
| AddProductPage.ColorSizeForm.RemoveCombination | src/pages/AddProduct/AddProduct.jsx:383-388 | drops exactly the row at the index; the error is set only when the list was already empty; src/pages/EditProduct/EditProduct.jsx:404-409 is the same code; the page invariant `ListsValid` (caps, no duplicate signatures, main image in range, distinct pairs) is kept |
| AddProductPage.AppendFreshPair | src/pages/AddProduct/AddProduct.jsx:366-377 | appending a row whose colour-size pair is free keeps the pairs distinct |
| AddProductPage.RemoveKeepsPairsDistinct | src/pages/AddProduct/AddProduct.jsx:383-388 | removing a row keeps the pairs distinct |
| AddProductPage.ColorSizeForm.ImageUpload | src/pages/AddProduct/AddProduct.jsx:238-274 | a batch over the free slots of 10 only sets the error; otherwise the de-duplicated files are appended in order, the main image becomes 0 when it was null, and the error is cleared or set to the duplicate message; count, uniqueness and the main-image range are kept; src/pages/EditProduct/EditProduct.jsx:263-299 is the same code; the page invariant `ListsValid` (caps, no duplicate signatures, main image in range, distinct pairs) is kept |
| AddProductPage.ColorSizeForm.VideoUpload | src/pages/AddProduct/AddProduct.jsx:277-308 | a batch that would pass 3 videos only sets the error; otherwise the de-duplicated files are appended in order; count and uniqueness are kept; src/pages/EditProduct/EditProduct.jsx:302-333 is the same code; the page invariant `ListsValid` (caps, no duplicate signatures, main image in range, distinct pairs) is kept |
| AddProductPage.ColorSizeForm.RemoveImage | src/pages/AddProduct/AddProduct.jsx:311-328 | drops the image at the index, moves the main image as `MainAfterRemoval` says and keeps it in range, and sets the error when no image is left; src/pages/EditProduct/EditProduct.jsx:336-353 is the same code; the page invariant `ListsValid` (caps, no duplicate signatures, main image in range, distinct pairs) is kept |
| AddProductPage.ColorSizeForm.ClearForm | src/pages/AddProduct/AddProduct.jsx:56-70 | every field goes back to its empty value as `ClearedContents` gives it, the errors are cleared, and `ListsValid` holds |
| AddProductPage.ColorSizeForm.Payload | src/pages/AddProduct/AddProduct.jsx:183-213 | nothing is built exactly when a colour is inherited (the `reduce` throws); otherwise the payload is `IsPayload` of the form: the trimmed name and description, the parsed price, an empty sale as 0, the properties `Object.values` lists for the grouping (a grouping of the rows), the tags, the files, the main image defaulting to 0, the first video as main video, and the page's `id` |
| AddProductPage.ColorSizeForm.Submit | src/pages/AddProduct/AddProduct.jsx:169-235 | sends exactly when `validateForm` finds no error and no colour is inherited, with the payload of the fields it had (`IsPayload`, no `id`); the errors are those `validateForm` computes; a successful request leaves the fields as `clearForm` does; a refused form or a failed request keeps every other field; `ListsValid` is kept |
| EditProductPage.InitialMainImage | src/pages/EditProduct/EditProduct.jsx:90 | a stored main image is kept, a stored null stays null, and a missing one becomes 0 when images exist and null when not |
| EditProductPage.FlattenGroups | src/pages/EditProduct/EditProduct.jsx:93-98 | the nested `forEach` flattens the stored groups into rows in order |
| EditProductPage.Populate | src/pages/EditProduct/EditProduct.jsx:82-102 | the form takes the stored product's fields, its main image as above, and its flattened rows |
| EditProductPage.SubmitUpdate | src/pages/EditProduct/EditProduct.jsx:190-260 | sends exactly when `validateForm` finds no error and no colour is inherited, otherwise the store is left alone; a sent form carries the form's payload (`IsPayload`) with the stored product's id and the properties `Object.values` lists, and the store ends not loading, with the response on success and the error on failure; unchanged rows send back the stored groups as `Object.values` lists them |
| AddPropertiesPage.PropertyEditor.constructor | src/pages/AddProperties/AddProperties.jsx:10-29 | every category's list is empty, the add input is empty, no edit is open and the draft is blank, and the initial load is pending |
| AddPropertiesPage.PropertyEditor.TypeNewProperty | src/pages/AddProperties/AddProperties.jsx:284 | the add input holds the typed text; the lists are kept |
| AddPropertiesPage.PropertyEditor.FetchProperties | src/pages/AddProperties/AddProperties.jsx:32-60 | a response's missing lists become empty lists; loading ends either way |
| AddPropertiesPage.AddOutcome | src/pages/AddProperties/AddProperties.jsx:64-116 | a blank value and a value already present ignoring case are refused with their messages; otherwise the trimmed value is appended to that category only, and kept exactly when the request succeeds |
| AddPropertiesPage.AddUndoneOnFailure | src/pages/AddProperties/AddProperties.jsx:97-100 | when the request fails, the revert gives back the list as it was before the add |
| AddPropertiesPage.AddKeepsUnique | src/pages/AddProperties/AddProperties.jsx:70-81 | an add keeps every category free of entries equal ignoring case |
| AddPropertiesPage.PropertyEditor.AddProperty | src/pages/AddProperties/AddProperties.jsx:64-116 | a refused value leaves the state and input alone and alerts; an applied one sets the lists of `AddOutcome` and clears the input |
| AddPropertiesPage.DeleteOutcome | src/pages/AddProperties/AddProperties.jsx:119-162 | the category's new list is the old one without any copy of the value, with the value appended once at the end when the request fails; so the value is gone exactly when the request succeeds; other categories are untouched |
| AddPropertiesPage.DeleteAndRestore | src/pages/AddProperties/AddProperties.jsx:142-145 | removing every copy and appending the value back gives the same multiset and keeps uniqueness |
| AddPropertiesPage.DeleteKeepsUnique | src/pages/AddProperties/AddProperties.jsx:122-145 | a delete, applied or reverted, keeps uniqueness; a reverted one the same multiset |
| AddPropertiesPage.PropertyEditor.DeleteProperty | src/pages/AddProperties/AddProperties.jsx:119-162 | nothing changes unless confirmed; then the lists are those of `DeleteOutcome` and a failure alerts |
| AddPropertiesPage.RenameOutcome | src/pages/AddProperties/AddProperties.jsx:171-233 | a blank value is refused; a value clashing ignoring case with another entry is refused unless it differs from the old one only in case; otherwise each copy of the old value is replaced, and kept exactly when the request succeeds |
| AddPropertiesPage.RenameThenRevert | src/pages/AddProperties/AddProperties.jsx:210-215 | replacing the old value and mapping the new one back gives the original list |
| AddPropertiesPage.RenameKeepsUnique | src/pages/AddProperties/AddProperties.jsx:177-194 | an allowed rename keeps uniqueness, introduces the new value and removes the old one |
| AddPropertiesPage.RenameOutcomeKeepsUnique | src/pages/AddProperties/AddProperties.jsx:171-233 | a save keeps uniqueness, and a failed one restores the lists |
| AddPropertiesPage.PropertyEditor.SaveEdit | src/pages/AddProperties/AddProperties.jsx:171-233 | a refused value alerts and stays in edit mode; an applied one sets the lists of `RenameOutcome` and leaves edit mode |
| AddPropertiesPage.PropertyEditor.EditInitiate | src/pages/AddProperties/AddProperties.jsx:165-168 | edit mode starts with the category and the value as both old and new text |
| AddPropertiesPage.PropertyEditor.EditText | src/pages/AddProperties/AddProperties.jsx:313 | only the draft's new text changes, its category and old name are kept, so an edit that had a category still has one |
| AddPropertiesPage.PropertyEditor.CancelEdit | src/pages/AddProperties/AddProperties.jsx:236-239 | edit mode ends and the draft is reset |
| TableFilters.IdSearchBasics | src/pages/OrderManagements/OrderManagements.jsx:76-80 | a blank search keeps every id, and a search for an id's own digits keeps it |
| ProductManagementsPage.FilteredProductsExactly | src/pages/ProductManagements/ProductManagements.jsx:98-164 | the sale, date, stock, tag and price chain keeps, in order, exactly the products that pass every filter |
| ProductManagementsPage.SaleFiltersPartition | src/pages/ProductManagements/ProductManagements.jsx:102-106 | for sales that are missing or not negative, 'yes' and 'no' split the list |
| ProductManagementsPage.LowStockWithinInStock | src/pages/ProductManagements/ProductManagements.jsx:120-137 | 'lowStock' keeps a subsequence of what 'inStock' keeps, and no stock filter keeps a product without properties |
| ProductManagementsPage.StockFiltersPartition | src/pages/ProductManagements/ProductManagements.jsx:120-137 | for products with properties and no negative quantity, 'inStock' and 'outOfStock' split the list |
| ProductManagementsPage.NoTagsKeepAll | src/pages/ProductManagements/ProductManagements.jsx:141-145 | an empty tag selection keeps every product |
| ProductManagementsPage.RowsAsWritten | src/pages/ProductManagements/ProductManagements.jsx:605-606 | the table body draws exactly the fetched products, in order, whatever the filters |
| ProductManagementsPage.RowsIgnoreFilters | src/pages/ProductManagements/ProductManagements.jsx:605-606 | a product with no sale under the sale filter 'yes' is drawn although the filter drops it |
| ProductManagementsPage.Rows | src/pages/ProductManagements/ProductManagements.jsx:98-164 | the rows meant to be drawn: in order, exactly the products the filters keep |
| ProductManagementsPage.ProductTable.FilteredRows | src/pages/ProductManagements/ProductManagements.jsx:98-164 | the `filteredProducts` memo over the page state: in order, exactly the fetched products that pass the active filters, the rows the page is meant to draw (see Findings) |
| ProductManagementsPage.ProductTable.DrawnRows | src/pages/ProductManagements/ProductManagements.jsx:605-606 | what the table body of the page state draws: every fetched product, in order, whatever the active filters (see Findings) |
| ProductManagementsPage.ProductTable.PageCountOfTotal | src/pages/ProductManagements/ProductManagements.jsx:167 | `Math.ceil(totalProducts / itemsPerPage)`: the fewest pages that hold every product |
| ProductManagementsPage.ProductTable.constructor | src/pages/ProductManagements/ProductManagements.jsx:21-56 | nothing fetched or selected, no filters, two items per page, first page |
| ProductManagementsPage.ProductTable.ReceivePage | src/pages/ProductManagements/ProductManagements.jsx:65-95 | a response replaces the products and total; a failed fetch keeps them |
| ProductManagementsPage.ProductTable.SelectAll | src/pages/ProductManagements/ProductManagements.jsx:170-176 | checked selects every product id in list order; unchecked clears the selection |
| ProductManagementsPage.ProductTable.Select | src/pages/ProductManagements/ProductManagements.jsx:178-182 | toggles the id and never introduces a duplicate |
| Lists.Toggle | src/pages/ProductManagements/ProductManagements.jsx:180 | the value is present afterwards exactly when it was absent; every other entry is kept |
| Lists.ToggleNoDuplicates | src/pages/ProductManagements/ProductManagements.jsx:180 | a toggle keeps a list free of duplicates |
| Lists.ToggleTwiceAbsent | src/pages/ProductManagements/ProductManagements.jsx:180 | toggling an absent value twice gives the list back |
| Lists.ToggleTwicePresent | src/pages/ProductManagements/ProductManagements.jsx:180 | toggling a present value twice gives the same entries, with that value moved to the end |
| ProductManagementsPage.RemovedAndKeptAreAll | src/pages/ProductManagements/ProductManagements.jsx:192-209 | the products kept by the optimistic delete and the ones added back together are the original products |
| ProductManagementsPage.SortByCreation | src/pages/ProductManagements/ProductManagements.jsx:210 | the in-place sort leaves the array ordered by `createdAt` and a permutation of what it was |
| ProductManagementsPage.ProductTable.DeleteSelected | src/pages/ProductManagements/ProductManagements.jsx:184-228 | nothing changes without a selection and a confirmation; a success removes the selected products and clears the selection; a failure leaves a permutation of the products ordered by `createdAt` and keeps the selection |
| ProductManagementsPage.ProductTable.DeleteSingle | src/pages/ProductManagements/ProductManagements.jsx:279-307 | a confirmed success removes exactly the products with that id; otherwise the list is as before |
| ProductManagementsPage.ProductTable.TagChange | src/pages/ProductManagements/ProductManagements.jsx:265-272 | checking appends the tag to the pending tags, unchecking removes it |
| ProductManagementsPage.ProductTable.EditTempFilters | src/pages/ProductManagements/ProductManagements.jsx:403-556 | the form's inputs replace the pending filters only; the active filters and the page are kept |
| ProductManagementsPage.ProductTable.PageChange | src/pages/ProductManagements/ProductManagements.jsx:234 | the page becomes the one the paginator selected; nothing else changes |
| ProductManagementsPage.ProductTable.ApplyFilters | src/pages/ProductManagements/ProductManagements.jsx:253-262 | the pending filters become active, the form closes, and the first page is shown |
| ProductManagementsPage.ProductTable.ClearFilters | src/pages/ProductManagements/ProductManagements.jsx:237-250 | both filter sets go back to their defaults |
| ProductManagementsPage.ProductTable.SetItemsPerPage | src/pages/ProductManagements/ProductManagements.jsx:332-335 | a new page size shows the first page |
| ProductManagementsPage.ProductTable.SearchChange | src/pages/ProductManagements/ProductManagements.jsx:274-277 | the search term changes and the first page is shown |
| OrderManagementsPage.FilteredOrdersExactly | src/pages/OrderManagements/OrderManagements.jsx:72-117 | the search, status, date and amount chain keeps, in order, exactly the orders that pass every test; with no search and no filter it is the whole list |
| OrderManagementsPage.FilteredOrdersIsOneFilter | src/pages/OrderManagements/OrderManagements.jsx:72-117 | the chain of filters equals one filter by the conjunction of the tests |
| OrderManagementsPage.OrderTable.Pages | src/pages/OrderManagements/OrderManagements.jsx:120 | the fewest pages of `itemsPerPage` that hold every filtered order |
| OrderManagementsPage.OrderTable.CurrentItems | src/pages/OrderManagements/OrderManagements.jsx:121-124 | at most `itemsPerPage` filtered orders, and some exactly when the page is below the page count |
| Lists.PageHoldsItem | src/pages/OrderManagements/OrderManagements.jsx:120-124 | every item appears on page `k / itemsPerPage` at position `k % itemsPerPage` |
| OrderManagementsPage.OrderTable.constructor | src/pages/OrderManagements/OrderManagements.jsx:45-69 | the given orders, no search, ten items per page, first page, every filter 'all' or empty in both sets, form closed; the page size is positive |
| OrderManagementsPage.OrderTable.SetSearchTerm | src/pages/OrderManagements/OrderManagements.jsx:202 | the search term becomes the typed text; the page and everything else are kept |
| OrderManagementsPage.OrderTable.EditTempFilters | src/pages/OrderManagements/OrderManagements.jsx:230-306 | the form's inputs replace the pending filters only; the active filters and the page are kept |
| OrderManagementsPage.OrderTable.PageChange | src/pages/OrderManagements/OrderManagements.jsx:127 | the page becomes the one the paginator selected; nothing else changes |
| OrderManagementsPage.OrderTable.ApplyFilters | src/pages/OrderManagements/OrderManagements.jsx:146-155 | the pending filters become active, the form closes, and the first page is shown |
| OrderManagementsPage.OrderTable.ClearFilters | src/pages/OrderManagements/OrderManagements.jsx:130-143 | both filter sets go back to 'all' and empty bounds; the page is kept |
| OrderManagementsPage.OrderTable.SetItemsPerPage | src/pages/OrderManagements/OrderManagements.jsx:183-186 | a new page size shows the first page |
| TransactionManagementsPage.FilteredTransactionsExactly | src/pages/TransactionManagements/TransactionManagements.jsx:61-119 | the chain keeps, in order, exactly the transactions that pass every test; with no search and no filter it is the whole list |
| TransactionManagementsPage.SingleDateBoundFilters | src/pages/TransactionManagements/TransactionManagements.jsx:86-95 | a 'from' bound alone already drops an earlier transaction |
| TransactionManagementsPage.TransactionTable.Pages | src/pages/TransactionManagements/TransactionManagements.jsx:122 | the fewest pages of `itemsPerPage` that hold every filtered transaction |
| TransactionManagementsPage.TransactionTable.CurrentItems | src/pages/TransactionManagements/TransactionManagements.jsx:123-126 | at most `itemsPerPage` filtered transactions, and some exactly when the page is below the page count |
| TransactionManagementsPage.TransactionTable.constructor | src/pages/TransactionManagements/TransactionManagements.jsx:32-58 | the given transactions, no search, ten items per page, first page, every filter 'all' or empty in both sets, form closed; the page size is positive |
| TransactionManagementsPage.TransactionTable.SetSearchTerm | src/pages/TransactionManagements/TransactionManagements.jsx:196 | the search term becomes the typed text; the page and everything else are kept |
| TransactionManagementsPage.TransactionTable.EditTempFilters | src/pages/TransactionManagements/TransactionManagements.jsx:228-342 | the form's inputs replace the pending filters only; the active filters and the page are kept |
| TransactionManagementsPage.TransactionTable.PageChange | src/pages/TransactionManagements/TransactionManagements.jsx:129 | the page becomes the one the paginator selected; nothing else changes |
| TransactionManagementsPage.TransactionTable.ApplyFilters | src/pages/TransactionManagements/TransactionManagements.jsx:150-160 | the pending filters become active, the form closes, and the first page is shown |
| TransactionManagementsPage.TransactionTable.ClearFilters | src/pages/TransactionManagements/TransactionManagements.jsx:132-147 | both filter sets go back to their defaults |
| TransactionManagementsPage.TransactionTable.SetItemsPerPage | src/pages/TransactionManagements/TransactionManagements.jsx:177-180 | a new page size shows the first page |
| SidebarNav.CollapsedFlag | src/components/Sidebar/Sidebar.jsx:136 | an id with no entry reads as folded |
| SidebarNav.Flip | src/components/Sidebar/Sidebar.jsx:84-87 | flips the id's entry and leaves every other entry as it was |
| SidebarNav.FlipTwice | src/components/Sidebar/Sidebar.jsx:92-99 | flipping an entry twice reads the same as not flipping it |
| SidebarNav.Sidebar.constructor | src/components/Sidebar/Sidebar.jsx:76-77 | the given menu, no active link or sub-entry, and no collapse entries, so every group reads as folded |
| SidebarNav.Sidebar.MainLinkClick | src/components/Sidebar/Sidebar.jsx:81-89 | another link becomes active with no sub-entry and its entry flips; the active link changes nothing |
| SidebarNav.Sidebar.CollapseToggle | src/components/Sidebar/Sidebar.jsx:92-99 | flips the entry only for an id that is not the active link |
| SidebarNav.Sidebar.SubMenuClick | src/components/Sidebar/Sidebar.jsx:102-104 | the parent becomes active with the clicked sub-entry |
| SidebarNav.Sidebar.HeaderKeyDown | src/components/Sidebar/SidebarLink.jsx:23-28 | Enter and Space prevent the default and toggle the group as a click would; other keys do nothing |
| SidebarNav.Sidebar.SyncRoute | src/components/Sidebar/Sidebar.jsx:107-121 | the loop over the menu computes `RouteSync` |
| SidebarNav.RouteSyncNoMatch | src/components/Sidebar/Sidebar.jsx:107-121 | when no item matches the route, the state is unchanged |
| SidebarNav.RouteSyncLastMatch | src/components/Sidebar/Sidebar.jsx:107-121 | the last matching item is active, with the pathname as sub-entry for a group and none for a link |
| SidebarNav.RouteSyncExpands | src/components/Sidebar/Sidebar.jsx:107-121 | a group is expanded afterwards exactly when it was before or it matches the route |
| SidebarNav.MenuRouteActivates | src/components/Sidebar/Sidebar.jsx:13-72 | on the route of any menu entry, that entry becomes active with no sub-entry |
| SidebarNav.MenuItemsAccepted | src/components/Sidebar/Sidebar.jsx:13-72 | every menu item passes both prop checks |
| SidebarLinkView.PathError | src/components/Sidebar/SidebarLink.jsx:97-102 | an error exactly for a 'link' item whose path is missing or empty |
| SidebarLinkView.SubmenusError | src/components/Sidebar/SidebarLink.jsx:103-117 | the loop returns the array message for a 'collapse' item without an array, the entry message when some entry lacks id, name, path or icon, and null otherwise and for every other type |
| SidebarLinkView.IsSubMenuActive | src/components/Sidebar/SidebarLink.jsx:20 | throws (`None`) exactly when `submenus` is present but not an array; otherwise true exactly when some sub-entry's path is the pathname, and false without `submenus` |
| SidebarLinkView.KeyDown | src/components/Sidebar/SidebarLink.jsx:23-28 | Enter and Space prevent the default and toggle once; any other key does nothing |
| SidebarLinkView.Render | src/components/Sidebar/SidebarLink.jsx:20-88 | fails exactly when `submenus` is present but not an array (line 20, any type) or a 'collapse' item has no `submenus`; otherwise 'link' draws a link, 'collapse' a group highlighted exactly when a sub-entry is active, any other type nothing |
| SidebarLinkView.AcceptedItemsRender | src/components/Sidebar/SidebarLink.jsx:20-117 | an item both prop checks accept fails to render exactly when its `submenus` is a non-array value, which the checks let through for a non-'collapse' type; its links have a non-empty path and a group's entries are an array |
| SidebarLinkView.AcceptedLinkWithObjectSubmenusFails | src/components/Sidebar/SidebarLink.jsx:20 | a 'link' with path '/x' and an object as `submenus` passes both prop checks and still fails to render |
| UserManagementsPage.UserTable.constructor | src/pages/UserManagements/UserManagements.jsx:6-7 | the given users, nobody selected, and no e-mail status, so every button is enabled |
| UserManagementsPage.UserTable.CheckboxChange | src/pages/UserManagements/UserManagements.jsx:29-34 | toggles the user's id and keeps the selection well formed |
| UserManagementsPage.UserTable.SelectAll | src/pages/UserManagements/UserManagements.jsx:44-50 | a selection as long as the user list is cleared; any other becomes every id, in user order |
| UserManagementsPage.SelectionFull | src/pages/UserManagements/UserManagements.jsx:45 | for a well-formed selection, its length equals the user count exactly when every user is selected |
| UserManagementsPage.UserTable.SelectAllLabel | src/pages/UserManagements/UserManagements.jsx:78 | reads 'Deselect All' exactly when the counts match, which for a well-formed selection is when everyone is selected |
| UserManagementsPage.UserTable.SelectedDetails | src/pages/UserManagements/UserManagements.jsx:69-72 | exactly the selected users, in user-list order |
| UserManagementsPage.UserTable.SendEmail | src/pages/UserManagements/UserManagements.jsx:56-59 | only that user becomes 'sent', which disables its button; no other button changes |
| UserManagementsPage.UserTable.ResetEmailStatus | src/pages/UserManagements/UserManagements.jsx:61-66 | the timer's update sets that user back to 'default' and enables its button; no other button changes |
| UserManagementsPage.DemoUsersDistinct | src/pages/UserManagements/UserManagements.jsx:9-13 | the listed users have distinct ids, so the empty selection is well formed |

## Left out

- Network requests, toasts, `alert` and `window.confirm` are not modelled as effects. A request's outcome, a response body and a confirmation are parameters (`requestSucceeds`, `response`, `body`, `confirmed`).
- `console.log` output is not modelled; `users.find` in `handleSendEmail` only feeds such a log.
- `URL.createObjectURL`, `revokeObjectURL` and `Date.now` stamps are not modelled. The image `onload`/`onerror` probe is not run: a candidate image carries its load result as a field, and the order in which the loads settle is a parameter (`order`).
- The five-second `setTimeout` of `handleSendEmail` is the separate method `ResetEmailStatus`; the model does not capture when it runs.
- React's batched, asynchronous `setState` is modelled as sequential atomic updates, including the `setMainImage` inside the `setImages` updater.
- The fetch effects of every page are left out (among them ProductForm's edit-mode load, which sets `isActive` from the product), except the properties fetch of `AddProperties` (`FetchProperties`) and the product page's response handling (`ReceivePage`); the server's filtering by search term and page is not modelled.
- `parseFloat` and the `Number` coercion are not modelled: a numeric input holds its text and the value its own check reads from it (`parseFloat` for price and sale, `Number` for a quantity being edited). `parseInt(text, 10)` is modelled as leading whitespace, an optional sign and the longest run of digits after it.
- `toLowerCase` is modelled on ASCII letters only, and string length counts characters, not UTF-16 code units.
- Dates are ordered integers; `new Date` parsing is not modelled.
- Floating-point prices and sizes (final price, megabyte sizes, `toFixed`) are not modelled; sizes are whole bytes.
- ProductForm's `handleVideoUpload`, `handleRemoveVideo`, `handleEditCombination` and `handleSelectMainImage`, and the `handleRemoveVideo` and `handleSelectMainImage` handlers of AddProduct and EditProduct, are not modelled. They are plain assignments or the same de-duplication as above.
- OrderManagements `clearFilters` does not reset the page, and the model follows the code (src/pages/OrderManagements/OrderManagements.jsx:130-143), although applying filters does.
- SidebarNav.Sidebar.SyncRoute: a 'collapse' item without a sub-entry array would throw in the effect; the model treats it as not matching. The menu has no such item.
- ProductManagementsPage.SortByCreation: the comparator never returns 0, so the relative order of products with equal `createdAt` depends on the engine's sort; the contract states only the order by `createdAt` and the permutation.
- AddProductPage.ColorSizeForm.AddCombination: `currentColor` is never set by any handler (the colour select is commented out), so on both pages every add attempt ends with "fill in all details"; this follows from the constructor's and the clear methods' contracts, not from a separate lemma.
- `selectApiLoading` and `selectApiError` (src/redux/selectors.js:7-8) are not modelled: they read `state.api`, the request cache of the api slice in src/redux/apiSlice.js, which belongs to the network layer left out above.
- The `clearProduct` dispatch when the edit page unmounts is the separate `EditProductSlice.EditProductStore.ClearProduct`; the model does not capture when it runs.

## Findings

| source | as written | input that shows it | evidently intended | confidence | as-written member | corrected member |
|---|---|---|---|---|---|---|
| src/pages/ProductManagements/ProductManagements.jsx:605-606 | the table body maps `products`, so `filteredProducts` (lines 98-164) is computed but never shown and the filter form has no visible effect | one product with no sale while the sale filter is 'yes' | the table draws `filteredProducts` | not executed | ProductManagementsPage.RowsIgnoreFilters | ProductManagementsPage.Rows |
