# Restaurant admin console: verified model of the screen logic

This project models the state-update and validation logic of four screens of a
restaurant admin console (a React front end), and proves what that logic promises.

- **Dashboard** (`dashboard.dfy`, `cart.dfy`). This is the point-of-sale screen.
  - It keeps one cart per table in a map from table id to cart lines. A table
    without a slot has the empty cart.
  - `addToCart` and `decQty` change only the active table's slot, and keep each
    cart at one line per dish with a quantity of at least 1.
  - The total is the sum of quantity × price.
  - The visible menu is the active category, narrowed by a trimmed, lower-cased
    search.
  - Placing an order is refused without a table or with an empty cart.
  - An active order fetched for a table overwrites that table's slot, whichever
    table is active when it arrives.
  - The first table and the first category are selected automatically.
  - The screen is the class `Dashboard.Session`. Backend responses are parameters
    of its methods (`ApplyTables`, `ApplyActiveOrder`, …). The methods are proved
    against the value-level cart functions of module `Cart`.
- **Menu management** (`menu.dfy`). The class `MenuManagement.MenuBoard` holds the
  dishes, the categories, the filter, the dish form and the category dialog.
  - Dishes can be toggled, deleted, added and edited, and the form is validated.
  - Category names are checked for duplicates ignoring case.
  - Deleting a category is refused while a dish uses it.
  - The price field keeps only digits.
  - Ids drawn from `Date.now()` are a `freshId` parameter.
- **Owner registration** (`register.dfy`): the validity predicate, the digit-only
  phone field, the submit guard and the request body with its renamed fields.
- **Table QR helpers** (`tables.dfy`): the backend-to-card mapping with its default
  menu link, the create-table body, the delete confirmation, the download file
  name, and the content each tab shows.

Shared modules:

- `wrappers.dfy`: `Option`.
- `seqs.dfy`: `Array.prototype.filter` as `Filter`, and order-preserving
  subsequences.
- `text.dfy`: models JavaScript's string operations:
  - `trim`, over the ECMAScript whitespace set;
  - `toLowerCase`, on ASCII letters;
  - `includes`;
  - `length`, counted in UTF-16 code units;
  - the `/\D/g` digit strip;
  - `Number` on a digit string.

JavaScript's truthiness is kept where the code relies on it:
- An empty table or category id counts as "none".
- A numeric id of `0` counts as "none", as `null` does (`MenuManagement.IsSet`).
- A missing `isAvailable` counts as available.
- A missing price reads as 0 and a missing quantity as 1.

## Model

| member | source | states |
|---|---|---|
| Wrappers.Option.GetOr | src/screens/Dashboard.tsx:175-178 | `x ?? d`: the value when present, the default otherwise |
| Seqs.Filter | src/screens/Dashboard.tsx:207 | `filter` keeps only elements satisfying the predicate, keeps every element that does, and never grows the list |
| Seqs.FilterMultiset | src/screens/Dashboard.tsx:207 | a filter keeps every copy of an element that satisfies the predicate and no copy of one that does not |
| Seqs.FilterLength | src/screens/Dashboard.tsx:145 | a filter keeps as many elements as satisfy its predicate |
| Seqs.FilterIsSubsequence | src/screens/MenuManagement.tsx:71-81 | a filter keeps the survivors in their original order |
| Seqs.FilterFilter | src/screens/Dashboard.tsx:207-210 | filtering twice equals filtering once by the conjunction |
| Text.Trim | src/screens/Dashboard.tsx:208 | `trim` returns the block of the input that starts at its first non-whitespace character, with only whitespace on either side and none at its own ends; the result is empty exactly when the input is all whitespace |
| Text.TrimIdempotent | src/screens/TableManagement.tsx:117-119 | trimming twice is trimming once |
| Text.TrimPadded | src/screens/AdminRegister.tsx:31-35 | whitespace added around a value does not change its trim |
| Text.TrimKeepsNonSpace | src/screens/AdminRegister.tsx:32 | trimming never removes a non-whitespace character such as '@' |
| Text.ToLower | src/screens/Dashboard.tsx:208 | `toLowerCase` keeps the length and maps each ASCII capital to its small letter, leaving other characters alone |
| Text.ToLowerIdempotent | src/screens/MenuManagement.tsx:182 | lower-casing twice is lower-casing once; no capital survives |
| Text.Contains | src/screens/Dashboard.tsx:210 | `includes`: the empty query is always found, and a found query is no longer than the text |
| Text.ContainsAt | src/screens/Dashboard.tsx:210 | `includes` holds exactly when the query occurs at some index |
| Text.Utf16Length | src/screens/AdminRegister.tsx:31-35 | `.length` counts UTF-16 code units: the number of characters plus the number of characters at or above U+10000 (`Count(s, IsAstral)`), so between one and two units per character |
| Text.Utf16LengthAppend | src/screens/AdminRegister.tsx:31-35 | the code-unit length of a concatenation is the sum of the two lengths |
| Text.Utf16LengthBmp | src/screens/AdminRegister.tsx:35 | on text inside the Basic Multilingual Plane `.length` is the number of characters |
| Text.DigitsOnly | src/screens/MenuManagement.tsx:482 | `/\D/g` stripping leaves only digits, as many as were typed, each digit as often as it was typed |
| Text.DigitsOnlyIdempotent | src/screens/AdminRegister.tsx:234 | stripping non-digits twice is stripping once |
| Text.DigitsOnlyKeepsOrder | src/screens/MenuManagement.tsx:482 | the digits stay in their typed order |
| Text.DecimalRoundTrip | src/screens/MenuManagement.tsx:485 | `Number` of the decimal text of n is n |
| Cart.IndexOf | src/screens/Dashboard.tsx:221 | `findIndex`: the first line with the dish id, or -1 when no line has it |
| Cart.IndexOfUnique | src/screens/Dashboard.tsx:221 | in a well-formed cart, `findIndex` of a line's own dish id is that line |
| Cart.AddLine | src/screens/Dashboard.tsx:218-233 | `addToCart` grows the cart by one line exactly when the dish is absent, and that new last line is the dish with quantity 1 |
| Cart.SetQty | src/screens/Dashboard.tsx:251 | the `map` branch of `decQty`: items unchanged; lines with the id get the new quantity, others keep theirs |
| Cart.RemoveId | src/screens/Dashboard.tsx:249 | the `filter` branch of `decQty`: no surviving line has the id, each comes from the cart, and the cart never grows |
| Cart.RemoveIdMultiset | src/screens/Dashboard.tsx:249 | the `filter` branch keeps every line of every other dish, each as often as before, and drops every line with the id |
| Cart.DecLine | src/screens/Dashboard.tsx:239-253 | `decQty` of a dish that is not in the cart returns the cart unchanged; `decQty` never grows the cart |
| Cart.DecLineKeepsOthers | src/screens/Dashboard.tsx:247-250 | `decQty` keeps every line of every other dish, in either branch |
| Cart.AddLineExisting | src/screens/Dashboard.tsx:223-225 | adding a dish already present raises that line by one in place, nothing else changes |
| Cart.AddLineNew | src/screens/Dashboard.tsx:226-227 | adding an absent dish appends one line of quantity 1 |
| Cart.AddLineByIndex | src/screens/Dashboard.tsx:221-229 | the update chosen by the `findIndex` result is the reference `AddLine` |
| Cart.AddLineWellFormed | src/screens/Dashboard.tsx:215-234 | adding keeps one line per dish and quantities of at least 1, and the dish is then in the cart |
| Cart.AddTimesFromEmpty | src/screens/Dashboard.tsx:215-234 | adding the same dish n times to an empty cart gives one line of quantity n |
| Cart.RemoveIdUnique | src/screens/Dashboard.tsx:250 | in a well-formed cart, dropping every line with the id drops exactly one line |
| Cart.SetQtyUnique | src/screens/Dashboard.tsx:251 | in a well-formed cart, setting every line with the id sets exactly one line |
| Cart.DecLineDrop | src/screens/Dashboard.tsx:245-250 | a dish whose line holds 1 disappears; the other lines keep their order |
| Cart.DecLineDecrement | src/screens/Dashboard.tsx:245-251 | a dish whose line holds more than 1 drops by exactly one, in place |
| Cart.RemoveAtWellFormed | src/screens/Dashboard.tsx:250 | removing a line keeps the cart invariant and leaves no line with that dish |
| Cart.DecrementWellFormed | src/screens/Dashboard.tsx:251 | decrementing a line above 1 keeps the cart invariant |
| Cart.DecLineWellFormed | src/screens/Dashboard.tsx:236-254 | `decQty` keeps the cart invariant; taking back the last unit removes the dish |
| Cart.DecLineUndoesAddLine | src/screens/Dashboard.tsx:215-254 | on a well-formed cart, `decQty` after `addToCart` of the same dish restores the cart |
| Cart.TotalAppend | src/screens/Dashboard.tsx:256-259 | the total of two carts put together is the sum of their totals |
| Cart.Total | src/screens/Dashboard.tsx:256-259 | the reduce starts from 0, so the empty cart totals 0; a one-line cart totals that line's qty × price |
| Cart.TotalCons | src/screens/Dashboard.tsx:256-259 | the total is the first line's qty × price plus the total of the rest |
| Cart.TotalSplit | src/screens/Dashboard.tsx:256-259 | the total is the totals before and after a line plus that line's qty × price |
| Cart.TotalAppendOne | src/screens/Dashboard.tsx:256-259 | appending a line adds its qty × price |
| Cart.TotalUpdate | src/screens/Dashboard.tsx:256-259 | replacing a line changes the total by the difference of the line amounts |
| Cart.TotalRemove | src/screens/Dashboard.tsx:256-259 | removing a line lowers the total by its amount |
| Cart.TotalDecrementAt | src/screens/Dashboard.tsx:251 | one fewer of a line subtracts its price |
| Cart.TotalRemoveSingle | src/screens/Dashboard.tsx:250 | removing a line of quantity 1 subtracts its price |
| Cart.TotalAddLine | src/screens/Dashboard.tsx:215-234 | `addToCart` raises the total by the price stored on the dish's line, or by the new dish's price |
| Cart.TotalDecLine | src/screens/Dashboard.tsx:236-254 | `decQty` of a dish in a well-formed cart lowers the total by that line's price |
| Cart.TotalDecLineDrop | src/screens/Dashboard.tsx:245-250 | the removal case of `TotalDecLine` |
| Cart.TotalDecLineDecrement | src/screens/Dashboard.tsx:245-251 | the decrement case of `TotalDecLine` |
| Cart.AddTwiceDecOnce | src/screens/Dashboard.tsx:215-259 | one dish added twice to an empty cart and taken back once: carts [d×1], [d×2], [d×1] with totals 2p and p |
| Cart.TotalNonNegative | src/screens/Dashboard.tsx:256-259 | with non-negative prices and quantities the total is non-negative |
| Dashboard.TablesFromApi | src/screens/Dashboard.tsx:87-91 | one table per record, in order, id and number copied; `occupied` is true only when the backend says true |
| Dashboard.CategoriesFromApi | src/screens/Dashboard.tsx:117-120 | one category per record, in order, id and name copied |
| Dashboard.MapItems | src/screens/Dashboard.tsx:146-151 | one menu item per record, in order: item i is record i's id, name, price and category |
| Dashboard.MapItemsMembers | src/screens/Dashboard.tsx:146-151 | every record is mapped, and every menu item comes from a record |
| Dashboard.MapItemsSubsequence | src/screens/Dashboard.tsx:144-151 | mapping keeps an order-preserving selection of records an order-preserving selection of items |
| Dashboard.DishesFromApi | src/screens/Dashboard.tsx:144-151 | the menu is an order-preserving selection of the mapped records, one item per record not marked unavailable, and holds exactly those dishes |
| Dashboard.LineFromApi | src/screens/Dashboard.tsx:171-179 | an order line keeps the dish id; a missing price is 0 and a missing quantity is 1 |
| Dashboard.LoadedCart | src/screens/Dashboard.tsx:171-179 | the loaded cart has one line per order line, in order, each read by `LineFromApi` |
| Dashboard.LoadedCartWellFormed | src/screens/Dashboard.tsx:171-179 | an order naming each dish once with positive quantities loads as a well-formed cart |
| Dashboard.UpdateKeepsAllWellFormed | src/screens/Dashboard.tsx:181-184 | writing a well-formed cart into one slot keeps every slot well formed |
| Dashboard.CartOf | src/screens/Dashboard.tsx:65 | the table's slot when it has one, the empty cart otherwise |
| Dashboard.Query | src/screens/Dashboard.tsx:208 | the query is empty exactly when the search box is all whitespace, holds no ASCII capital, and is no longer than the box |
| Dashboard.VisibleItems | src/screens/Dashboard.tsx:206-211 | `visibleItems` keeps menu order and keeps every copy of exactly the dishes of the active category whose lower-cased name contains the trimmed, lower-cased query, or of all of them when the query is blank |
| Dashboard.VisibleAsOneFilter | src/screens/Dashboard.tsx:207-210 | the category filter followed by the name filter selects what one filter by both conditions selects |
| Dashboard.VisibleItemsBlankSearch | src/screens/Dashboard.tsx:209 | a blank search shows the whole category |
| Dashboard.FindIndex | src/screens/Dashboard.tsx:221 | the loop returns the first line with the id, or -1 |
| Dashboard.FirstIndexUnique | src/screens/Dashboard.tsx:221 | the loop's answer is `IndexOf` |
| Dashboard.Session.constructor | src/screens/Dashboard.tsx:49-65 | initial state: nothing loaded or selected, no carts, the active cart empty |
| Dashboard.Session.ApplyTables | src/screens/Dashboard.tsx:80-98 | the tables are replaced; the first table is selected only when none was; the newly selected table's order is fetched |
| Dashboard.Session.SelectTable | src/screens/Dashboard.tsx:196-200 | a table button makes the table active; its order is fetched only if the active id changed |
| Dashboard.Session.ApplyCategories | src/screens/Dashboard.tsx:111-127 | the categories are replaced; the first is selected only when none was |
| Dashboard.Session.ApplyDishes | src/screens/Dashboard.tsx:137-153 | the menu becomes the available dishes |
| Dashboard.Session.ApplyActiveOrder | src/screens/Dashboard.tsx:166-185 | only the issuing table's slot is overwritten with the loaded cart; another active table's cart is untouched |
| Dashboard.Session.AddToCart | src/screens/Dashboard.tsx:215-234 | no-op without a table; otherwise only the active slot changes, to `AddLine` of it; the cart invariant is kept |
| Dashboard.Session.DecQty | src/screens/Dashboard.tsx:236-254 | no-op without a table or for an absent dish; otherwise only the active slot changes, to `DecLine` of it; the cart invariant is kept |
| Dashboard.Session.PlaceOrder | src/screens/Dashboard.tsx:262-274 | refused exactly when there is no table, or exactly when the cart is empty; otherwise the request carries the active table and its whole cart |
| Dashboard.Session.OrderPlaced | src/screens/Dashboard.tsx:276-279 | after an order the tables are refetched, the carts are not cleared, and the active table stays |
| Dashboard.EndToEndScenario | src/screens/Dashboard.tsx:215-274 | load a table, add a dish at 250 twice, take one back: carts [d×2] then [d×1], totals 500 then 250, the order sends [d×1] for the table |
| Dashboard.StaleFetchScenario | src/screens/Dashboard.tsx:166-200 | an order fetched for a table the user left lands in that table's slot and leaves the displayed cart alone |
| MenuManagement.FilteredDishes | src/screens/MenuManagement.tsx:70-82 | keeps list order and every copy of exactly the dishes of the selected category (any, when none) whose lower-cased name contains the lower-cased, untrimmed search |
| MenuManagement.FilteredDishesUnrestricted | src/screens/MenuManagement.tsx:72-78 | no category and an empty search list every dish in order |
| MenuManagement.Toggled | src/screens/MenuManagement.tsx:86-92 | toggling keeps the list length |
| MenuManagement.ToggledEffect | src/screens/MenuManagement.tsx:86-92 | `available` flips exactly on dishes with the id; nothing else about any dish changes |
| MenuManagement.ToggledTwice | src/screens/MenuManagement.tsx:86-92 | toggling twice restores the list |
| MenuManagement.WithoutDish | src/screens/MenuManagement.tsx:94-96 | deleting keeps the others in order, each as often as before, and removes every dish with the id |
| MenuManagement.ImageOrDefault | src/screens/MenuManagement.tsx:128 | an empty image becomes "/foodimage.jpg"; a given one is kept |
| MenuManagement.NewDish | src/screens/MenuManagement.tsx:135-143 | the added dish is available, has the fresh id, and carries exactly the form's fields |
| MenuManagement.ApplyForm | src/screens/MenuManagement.tsx:121-129 | an edit keeps the dish's id and availability and takes the form's name, description, price, category and image (or the default image) |
| MenuManagement.Edited | src/screens/MenuManagement.tsx:119-132 | saving an edit keeps the list length, every id and availability flag, leaves dishes with other ids alone, and applies the form to each dish with the id |
| MenuManagement.EditedKeepsIdentity | src/screens/MenuManagement.tsx:117-132 | an edited dish keeps its id and availability and carries the form's name, description, price, category and image (the default image when the field is empty); other dishes are left alone |
| MenuManagement.CanSave | src/screens/MenuManagement.tsx:109-115 | saving goes ahead exactly when the name is not all whitespace and a price and a category are given |
| MenuManagement.AnyNameLowersTo | src/screens/MenuManagement.tsx:181-183 | `some` over the categories: a name equal ignoring case exists |
| MenuManagement.JudgeCategoryName | src/screens/MenuManagement.tsx:175-193 | blank exactly when the name is all whitespace; duplicate exactly when a category equals the trimmed name ignoring case; otherwise the trimmed, non-empty name is accepted |
| MenuManagement.AcceptedKeepsNamesDistinct | src/screens/MenuManagement.tsx:190-195 | an accepted name keeps names distinct ignoring case, and the same name is refused next time |
| MenuManagement.UsesCategory | src/screens/MenuManagement.tsx:204 | `some`: a dish with that category exists |
| MenuManagement.PriceInput | src/screens/MenuManagement.tsx:481-486 | the price field is empty exactly when no digit was typed |
| MenuManagement.PriceInputRoundTrip | src/screens/MenuManagement.tsx:481-486 | a displayed price reads back as the same price |
| MenuManagement.PriceInputIgnoresNonDigit | src/screens/MenuManagement.tsx:481-486 | a non-digit typed anywhere in the price field does not change the price read |
| MenuManagement.PriceInputDigitsOnly | src/screens/MenuManagement.tsx:481-486 | the price read depends only on the digits typed |
| MenuManagement.PriceInputExample | src/screens/MenuManagement.tsx:481-486 | typing "1a2" gives the price 12 |
| MenuManagement.FindDish | src/screens/MenuManagement.tsx:387-388 | `find`: the first dish with the id, or none when no dish has it |
| MenuManagement.SubsequenceNamesDistinct | src/screens/MenuManagement.tsx:211 | dropping categories keeps names distinct |
| MenuManagement.MenuBoard.constructor | src/screens/MenuManagement.tsx:32-66 | the three sample categories, the two sample dishes, nothing selected |
| MenuManagement.MenuBoard.ToggleAvailability | src/screens/MenuManagement.tsx:86-92 | the dishes become `Toggled` of the old ones |
| MenuManagement.MenuBoard.DeleteDish | src/screens/MenuManagement.tsx:94-96 | the dishes become `WithoutDish` of the old ones |
| MenuManagement.MenuBoard.StartAdd | src/screens/MenuManagement.tsx:254-263 | the "add dish" button clears the form and leaves edit mode |
| MenuManagement.MenuBoard.StartEdit | src/screens/MenuManagement.tsx:387-399 | "Edit" fills the form from the first dish with the id and targets that id; an unknown id changes nothing |
| MenuManagement.MenuBoard.TypePrice | src/screens/MenuManagement.tsx:481-486 | the price field holds `PriceInput` of what was typed |
| MenuManagement.MenuBoard.SaveDish | src/screens/MenuManagement.tsx:108-159 | refused, with nothing changed, without a name, price and category; edit mode rewrites the dishes with the id; add mode appends one available dish; then the form resets |
| MenuManagement.MenuBoard.AddCategory | src/screens/MenuManagement.tsx:175-200 | blank: "Category name is required."; duplicate: "Category already exists."; the list is unchanged on both; accepted: the trimmed name is appended and the dialog cleared; names stay distinct |
| MenuManagement.MenuBoard.DeleteCategory | src/screens/MenuManagement.tsx:202-217 | refused, with nothing changed, exactly when a dish uses the category; otherwise that category goes and its filter is cleared |
| AdminRegister.EmailCheckIsAt | src/screens/AdminRegister.tsx:32 | the email check holds exactly when the email contains '@' |
| AdminRegister.IsValid | src/screens/AdminRegister.tsx:30-37 | the checks measure trimmed lengths in UTF-16 code units; a valid form has an '@' in its email and no all-whitespace owner name, password, restaurant name or phone |
| AdminRegister.EmojiPasswordLength | src/screens/AdminRegister.tsx:33 | a password of three emoji counts as six code units, so it passes the length check of 6 |
| AdminRegister.IsValidIgnoresCityAndAddress | src/screens/AdminRegister.tsx:30-37 | city and address never affect validity |
| AdminRegister.IsValidIgnoresPadding | src/screens/AdminRegister.tsx:31-33 | whitespace around the owner name, email and password does not affect validity |
| AdminRegister.PhoneInput | src/screens/AdminRegister.tsx:233-235 | the phone field holds only digits, exactly as many as were typed, each as often as it was typed |
| AdminRegister.PhoneInputIdempotent | src/screens/AdminRegister.tsx:233-235 | sanitising twice is sanitising once |
| AdminRegister.PhoneCheckCountsDigits | src/screens/AdminRegister.tsx:35 | for a phone from the field, the length check passes exactly when at least ten digits were typed |
| AdminRegister.PayloadOf | src/screens/AdminRegister.tsx:50-58 | reading the request body back through the renaming gives the form |
| AdminRegister.PayloadRoundTrip | src/screens/AdminRegister.tsx:50-58 | the renaming read the other way also loses nothing; name, restroname and phone carry owner name, restaurant name and phone |
| AdminRegister.Submit | src/screens/AdminRegister.tsx:42-58 | a request is sent exactly when the form is valid and nothing is loading, and it carries the whole form |
| TableManagement.MapApiToUI | src/screens/TableManagement.tsx:56-60 | id and number copied; a non-empty QR value is the link; otherwise the link is the menu link of the table's own id |
| TableManagement.CreatePayload | src/screens/TableManagement.tsx:117-119 | a number is sent exactly when the typed text is not blank, and it is the trimmed text |
| TableManagement.CreatePayloadStable | src/screens/TableManagement.tsx:117-119 | a sent number typed again is sent unchanged |
| TableManagement.ConfirmDelete | src/screens/TableManagement.tsx:142-145 | a delete is issued exactly when a table is pending, for that table's id |
| TableManagement.DownloadFileName | src/screens/TableManagement.tsx:156 | the download name starts with "table-", ends with "-qr.png", and is exactly as long as both plus the table number |
| TableManagement.DownloadFileNameRoundTrip | src/screens/TableManagement.tsx:156 | the download name is "table-", the number, "-qr.png", and the number can be read back from it |
| TableManagement.CardContentFor | src/screens/TableManagement.tsx:411-414 | the "QR Data" tab shows the link as text; every other tab shows the QR code of the link |

## Left out

- JSX rendering, styling, colours, modal open and close flags, `alert` and toast
  messages: these are presentation only.
- HTTP calls and their failures. Every backend response is a parameter of the
  method that applies it. A failed request only raises an alert, so it has no
  method.
- `res.data?.data || []` is not modelled: the parameters are the already-unwrapped
  lists.
- The `URL_PATH.GetTables` name in TableManagement.tsx, which API.ts does not
  define, is left out. It is part of the network layer.
- Browser storage is left out: the bearer token read from `localStorage`, and the
  token written after registration under the key "admi_token".
- `FileReader` image upload, the QR canvas and the PNG download are DOM calls.
  Only the file name is modelled.
- Routing and navigation are left out.
- Async interleaving is not modelled:
  - React effects and fetches run as sequential method calls.
  - The dashboard's effect on `activeTableId` is the `fetchOrderFor` result of
    `ApplyTables` and `SelectTable`.
  - The stale-response case is one call of `ApplyActiveOrder` for the table the
    request was issued for.
- Plain setters are left out: the search box and the category buttons in both
  screens, the dish form's name, description, category and image fields, the
  category dialog's text field, and the table number field. They assign the typed
  value unchanged.
- TableManagement's fetch, create and delete flows (loading flags, table list
  refresh, active tab) are left out. Only the pure helpers they use are modelled.
- Text.ToLower: lower-cases ASCII letters only. JavaScript's `toLowerCase` also
  maps non-ASCII capitals.
- Text.DecimalValue: computes the exact integer. JavaScript's `Number` loses
  precision above 2^53 for very long digit strings.
- Strings are sequences of Unicode scalar values. A JavaScript string holding an
  unpaired surrogate cannot be written in the model.
- Prices and quantities are integers, not JavaScript floating-point numbers.
- AdminRegister.PhoneInput: the input's `maxLength={10}` is enforced by the
  browser, not by the handler, and is not modelled.
- A dish's category reference (`categoryId?._id || categoryId`) is modelled as the
  resolved id string.
- An order line without a `dish` object is not modelled. The model assumes every
  line names a dish.
- The dish form's category `<select>` yields a string that the save handler
  converts with `Number`. The model holds the converted number, as
  `Option<int>`.
- Dashboard.Session.ApplyActiveOrder: preserves the cart invariant only when the
  backend order names each dish once with positive quantities. The source applies
  `qty ?? 1` and keeps a quantity of 0 or less as it is.
