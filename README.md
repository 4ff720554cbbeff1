# Patisserie back office and shop, modelled in Dafny

This project models the bookkeeping core of a bakery's web application
(a Node/Express back end over MongoDB, a React shop and a React admin):

- the supplier ledger: suppliers ("fournisseurs") with their purchase
  vouchers ("bonnes") and payments ("paiements"), the two ways a payment is
  spread over the vouchers, the voucher image lists and the admin's weekly
  figures;
- custom cake orders ("commandes"): totals, the remaining balance, the
  six-character order codes with their bounded retry, the status list and
  the advance payment;
- the two carts: the shop's cart object (a quantity or a sweet record per
  key) and the server's item/colour/count cart;
- shop orders: payload validation, item normalisation, the status whitelist
  and the Stripe verification branch;
- employees: the age the model recomputes on save, the job category list,
  and the employee page's rows, advances and absences;
- the shop pages' list logic: the collection filter, sort and pages, the
  add-all rule, the cart page's split of the cart into product and sweet
  lines, the purchase history sync, and the ESC/POS receipt text.

Money is an `int` (an amount in the smallest unit), except where the shop
divides a weight by 1000, where it is a `real`.  Dates are integer stamps
or calendar triples.  The clock, random draws, generated file names and
database ids are parameters.  A document the code updates in place is a
class (`Fournisseur.Supplier`, `Commande.Order`, `EmployerModel.Employer`,
`ServerCart.User`, `EmployerPage.Page`, `CommandesPage.OrderForm`).  A
JavaScript object used as a dictionary is an association list with unique
keys (`JsObject`), so that the key order of `Object.keys` is kept.

## Model

| member | source | states |
|---|---|---|
| Fournisseur.ParseCategory | backend/models/Fournisseur.js:57-61 | a category string is accepted exactly when it is one of the six names, and then names the category it parses to |
| Fournisseur.CategoryNameParses | backend/models/Fournisseur.js:57-61 | every category's name is accepted as that category |
| Fournisseur.NewVoucherSound | backend/models/Fournisseur.js:4-29 | a voucher created with the schema defaults (not paid, paid part 0) and a non-negative amount satisfies the ledger invariant `0 <= paidAmount <= amount`, `isPaid ==> paidAmount == amount` |
| Fournisseur.TotalAmountAppend | backend/controllers/fournisseurController.js:38 | the voucher total of two lists is the sum of their totals |
| Fournisseur.TotalPaymentsAppend | backend/controllers/fournisseurController.js:327 | the payment total of two lists is the sum of their totals |
| Fournisseur.ValidateSupplier | backend/models/Fournisseur.js:46-61 | a supplier is accepted exactly when the trimmed name and phone are non-empty and the category is in the list; the stored fields are the trimmed ones |
| Fournisseur.Supplier.constructor | backend/models/Fournisseur.js:62-75 | a new supplier has no vouchers, no payments and both running totals at 0, so the totals match the lists |
| FournisseurController.PayTargeted | backend/controllers/fournisseurController.js:330-340 | a targeted payment adds `min(amount - paidAmount, payment)` to the paid part: a payment covering the rest pays the voucher off and flags it, a smaller one adds exactly itself; only the paid part and flag change, and a paid flag stays set |
| FournisseurController.PayTargetedSound | backend/controllers/fournisseurController.js:333-339 | a non-negative targeted payment keeps the voucher invariant, never lowers the paid part, and leaves the flag set exactly when the voucher is covered or was already flagged |
| FournisseurController.Sweep | backend/controllers/fournisseurController.js:343-358 | the general payment keeps the number of vouchers and changes nothing when the amount is not positive |
| FournisseurController.Leftover | backend/controllers/fournisseurController.js:344-357 | the money left after the sweep is never negative when the payment is not, and is the payment itself when that is not positive |
| FournisseurController.Allocate | backend/controllers/fournisseurController.js:329-358 | whichever branch runs, every voucher keeps its amount, images, description and date |
| FournisseurController.SweepKeepsVouchers | backend/controllers/fournisseurController.js:347-355 | the sweep changes only the paid part and the flag of each voucher |
| FournisseurController.SweepSound | backend/controllers/fournisseurController.js:343-358 | the sweep keeps every voucher within the ledger invariant |
| FournisseurController.SweepOnlyRaises | backend/controllers/fournisseurController.js:347-349 | the sweep never lowers a paid part and leaves vouchers already flagged paid exactly as they were |
| FournisseurController.SweepApplied | backend/controllers/fournisseurController.js:344-357 | the paid parts grow in total by exactly the payment minus what is left over, and the leftover lies between 0 and the payment |
| FournisseurController.SweepInOrder | backend/controllers/fournisseurController.js:345-356 | a voucher receives money from the sweep only if every earlier voucher ends the call fully paid |
| FournisseurController.LeftoverMeansAllPaid | backend/controllers/fournisseurController.js:345-357 | money left over after the sweep means every voucher ends fully paid |
| FournisseurController.AllocateSound | backend/controllers/fournisseurController.js:329-358 | an allocation of a non-negative payment keeps every voucher within the invariant and never clears a paid flag |
| FournisseurController.AllocateTargetedOnly | backend/controllers/fournisseurController.js:330-341 | a targeted payment touches only its voucher, and a target that does not resolve changes nothing (there is no fall-back to the sweep) |
| FournisseurController.SweepExample | backend/controllers/fournisseurController.js:343-358 | vouchers of 50 and 30 and a payment of 60: the first is paid off and flagged, the second gets 10 and stays unpaid |
| FournisseurController.SweepVouchers | backend/controllers/fournisseurController.js:343-358 | the `for` loop over the stored vouchers, with its early `break`, leaves exactly the vouchers the sweep specification gives |
| FournisseurController.RecordPayment | backend/controllers/fournisseurController.js:316-386 | addPaiement: an amount that `parseFloat` does not read as a number (missing or not numeric) answers 400 and changes nothing, since the NaN total fails the save; a number answers 200 with the vouchers allocated as specified, one record `{amount, now, description}` appended, the raw amount added to `bonnesPayer` whatever was allocated, and nothing else changed; the running totals and the voucher invariant are preserved either way |
| FournisseurController.ApplyPayment | backend/controllers/fournisseurController.js:326-365 | the payment proper: allocation as specified, one payment record appended, the raw amount added to `bonnesPayer`, nothing else changed, invariants preserved |
| FournisseurController.SameAmountsSameTotal | backend/controllers/fournisseurController.js:326-365 | lists whose vouchers have the same amounts have the same total, so a payment never moves `totalBonnesAchat` |
| FournisseurController.AddVoucher | backend/controllers/fournisseurController.js:220-242 | addBonne: one voucher with amount `parseFloat(amount) \|\| 0`, the given date or now, the uploaded names in order and the defaults is appended at the end, `totalBonnesAchat` grows by that amount, the files are stored, and nothing else changes |
| FournisseurController.OnePerImage | backend/controllers/fournisseurController.js:25-36 | an upload batch gives one voucher per image, in upload order, each with a one-element image list and the shared amount and description |
| FournisseurController.OnePerImageSound | backend/controllers/fournisseurController.js:31-36 | appending such a batch with a non-negative amount keeps every voucher within the invariant |
| FournisseurController.AppendOnePerImage | backend/controllers/fournisseurController.js:124-136 | the upload loop appends exactly the batch's vouchers and stores every uploaded file |
| FournisseurController.CreateSupplier | backend/controllers/fournisseurController.js:10-48 | createFournisseur answers 201 with a new supplier exactly when validation passes; the supplier holds the trimmed fields, one voucher per image, no payments, totals matching the lists; otherwise 400 |
| FournisseurController.OrElse | backend/controllers/fournisseurController.js:116-118 | `sent \|\| current` is one of the two and is empty only when both are |
| FournisseurController.UpdateSupplier | backend/controllers/fournisseurController.js:116-140 | updateFournisseur overwrites name, phone and category only with non-empty values and `isHidden` only when sent; it appends one voucher per image; it recomputes `totalBonnesAchat` as the voucher sum only when images came; a validation failure changes nothing |
| FournisseurController.ApplyUpdate | backend/controllers/fournisseurController.js:115-140 | the saving branch: the checked fields are set, `isHidden` only when sent, one voucher is appended per uploaded image and the purchase total recomputed when there were uploads; payments untouched, invariants preserved |
| FournisseurController.UpdateKeepsUnsentFields | backend/controllers/fournisseurController.js:116-118 | an update that sends no text fields keeps the supplier's name, phone and category |
| FournisseurController.AddImagesToVoucher | backend/controllers/fournisseurController.js:276-292 | addImagesToBonne appends the uploaded names to the voucher's images and changes nothing else; an unknown voucher gives 404 and changes nothing |
| FournisseurController.RemoveAll | backend/controllers/fournisseurController.js:435 | the filter removes every occurrence of the name and keeps every other name with its count; an absent name leaves the list as it was |
| FournisseurController.RemoveAllIdempotent | backend/controllers/fournisseurController.js:435 | deleting an image twice is the same as deleting it once |
| FournisseurController.DeleteVoucherImage | backend/controllers/fournisseurController.js:429-442 | deleteBonneImage removes the name from that voucher only and deletes the file; an unknown voucher gives 404 and changes nothing |
| FournisseurController.DeleteSupplierImages | backend/controllers/fournisseurController.js:192-201 | deleteFournisseur's loop removes from the store exactly the files the supplier's vouchers reference |
| FournisseurController.ImagesOfSnoc | backend/controllers/fournisseurController.js:192-201 | the names referenced by one more voucher are the earlier ones plus that voucher's images |
| FournisseurAdmin.Recent | admin/src/pages/Fournisseur.jsx:240-246 | the weekly filter of the vouchers and of the payments keeps exactly the entries dated on or after one week ago, in their order, and no more than there were |
| FournisseurAdmin.CalculateWeeklyStats | admin/src/pages/Fournisseur.jsx:236-258 | the rest to pay is the weekly voucher total less the weekly payment total, and the counts are bounded by the lists |
| FournisseurAdmin.RecentAppend | admin/src/pages/Fournisseur.jsx:240-246 | a new voucher or payment enters the weekly list, at its end, exactly when it is dated within the window |
| FournisseurAdmin.WeeklyStatsNewVoucher | admin/src/pages/Fournisseur.jsx:240-256 | a voucher dated in the window adds its amount to the voucher total and the rest, and one to the count; one outside changes nothing |
| FournisseurAdmin.WeeklyStatsNewPayment | admin/src/pages/Fournisseur.jsx:244-256 | a payment dated in the window adds its amount to the payment total, one to the count, and takes its amount off the rest; one outside changes nothing |
| FournisseurAdmin.AllRecent | admin/src/pages/Fournisseur.jsx:240-246 | when every voucher (or payment) is in the window, nothing is filtered out |
| FournisseurAdmin.WeeklyStatsAllRecent | admin/src/pages/Fournisseur.jsx:236-258 | with everything in the window, the figures are the sums and lengths of the whole lists |
| FournisseurAdmin.WeeklyRestCanBeNegative | admin/src/pages/Fournisseur.jsx:254 | the weekly rest is not clamped: a payment of 100 with no voucher gives -100 |
| FournisseurAdmin.Balance | admin/src/pages/Fournisseur.jsx:489 | the list's "Reste à Payer" column, for a supplier whose totals match its lists, is the voucher sum less the payment sum |
| FournisseurAdmin.DefaultPaymentSettles | admin/src/pages/Fournisseur.jsx:613-619 | the "Payer" button, shown only on unpaid vouchers, offers `amount - paidAmount`; paying exactly that pays the voucher off and flags it |
| FournisseurAdmin.AddVoucherRequest | admin/src/pages/Fournisseur.jsx:360-365 | the add-voucher form sends a request exactly when the amount is numeric and the date is filled in, and sends the parsed amount |
| FournisseurAdmin.PaymentRequest | admin/src/pages/Fournisseur.jsx:520-523 | the general payment prompt sends a request exactly when the amount is numeric, and sends the parsed amount |
| OrderCode.CharAt | backend/controllers/commandeController.js:5-8 | the character at a draw index below 36 is a capital letter or a digit |
| OrderCode.CharIndex | backend/controllers/commandeController.js:5 | every capital letter and digit is in the alphabet, at an index the alphabet maps back to it |
| OrderCode.CharAtInjective | backend/controllers/commandeController.js:5 | distinct draw indices give distinct characters |
| OrderCode.CodeOf | backend/controllers/commandeController.js:6-10 | the code drawn has one character per draw, each the alphabet's character at that index |
| OrderCode.DrawOf | backend/controllers/commandeController.js:67 | every valid code has a valid draw of six in-range indices |
| OrderCode.CodeDrawRoundTrip | backend/controllers/commandeController.js:4-11 | six in-range draws give a valid code and can be read back from it; every valid code is the code of its draw, so the generator can produce every code of the format |
| OrderCode.GenerateCode | backend/controllers/commandeController.js:4-11 | the loop that appends six drawn characters returns the code of the draw, which is exactly six characters from A-Z0-9 |
| OrderCode.FirstFree | backend/controllers/commandeController.js:28-35 | the retry loop stops at the first candidate no existing order uses; it fails exactly when every candidate is taken |
| OrderCode.Candidates | backend/controllers/commandeController.js:29 | the candidate codes are the codes of the ten draws, in order |
| OrderCode.PickUniqueCode | backend/controllers/commandeController.js:23-42 | the bounded `while` loop of at most ten attempts returns the first free candidate, a valid code nobody uses, or nothing when all ten are taken |
| OrderCode.FirstFreeAt | backend/controllers/commandeController.js:28-35 | when the candidate at position k is the first free one, the retry picks it |
| OrderCode.ToUpper | backend/controllers/commandeController.js:74 | upper-casing maps every character and keeps the length |
| OrderCode.UpperOfValidCode | backend/controllers/commandeController.js:67-74 | a code that passed the format check is unchanged by `toUpperCase`, so the lookup uses the code as typed |
| Commande.TotalAppend | backend/controllers/commandeController.js:19 | the `reduce` total of two item lists is the sum of their totals |
| Commande.TotalWithout | frontend/src/pages/Commandes.jsx:173-189 | dropping one item takes exactly its `price * quantity` off the total |
| Commande.ParseStatus | backend/models/CommandeModel.js:45-49 | a status string is accepted exactly when it is one of the five names, and then names the status it parses to |
| Commande.StatusNameParses | backend/models/CommandeModel.js:45-49 | every status's name is accepted as that status |
| Commande.Order.constructor | backend/models/CommandeModel.js:14-49 | a new order has description '' unless given, `avance` 0 unless given and status pending |
| Commande.Order.PreSave | backend/models/CommandeModel.js:55-102 | the save hooks: a new order without a code draws at most ten codes and takes the first free one, failing with nothing changed when all are taken; an order with a code keeps it; `reste` is always recomputed as `total - avance`, overriding any value given |
| Commande.Order.Save | backend/models/CommandeModel.js:3-102 | a save succeeds exactly when the required fields are present and `avance >= 0`; a failed save changes nothing; a successful one leaves `reste == total - avance` and the other fields as they were |
| Commande.CodeHookUnreachable | backend/models/CommandeModel.js:4-9 | `code` is required and the schema validators run before the save hooks, so a document without a code fails validation and the code-drawing hook never runs |
| CommandeController.CreateCommande | backend/controllers/commandeController.js:14-59 | createCommande answers 201 exactly when a free code is found among the ten draws and the order validates; the new order has that code, `total` as the sum of `price * quantity`, `avance` defaulting to 0, `reste = total - avance` and status pending; otherwise 500 with no order |
| CommandeController.GetCommandeByCode | backend/controllers/commandeController.js:62-87 | 400 exactly when the code is not six characters from A-Z0-9, checked before the lookup; then 404 when no order has it and 200 when one does |
| CommandeController.UpdateAvance | backend/controllers/commandeController.js:122-147 | a missing order gives 404; `avance > total` gives 400 with nothing changed; otherwise `avance` is set and `reste = total - avance`, which then lies between 0 and the total, or 500 when the schema rejects the value |
| CommandeController.UpdateStatus | backend/controllers/commandeController.js:100-119 | a status outside the five gives 500 from the validator; a missing order gives 404; otherwise the status is set and nothing else changes |
| CommandeController.DeleteCommande | backend/controllers/commandeController.js:150-166 | deleting an unknown id gives 404 and changes nothing; otherwise exactly that order is gone |
| CommandesPage.AddItemField | frontend/src/pages/Commandes.jsx:165-170 | a blank line `{name: "", price: 0, quantity: 1}` is appended and the existing lines are kept |
| CommandesPage.AddItemKeepsTotal | frontend/src/pages/Commandes.jsx:165-170 | adding a blank line leaves the total as it was |
| CommandesPage.KeepOthersMiss | frontend/src/pages/Commandes.jsx:175 | filtering out an index outside the list keeps the list |
| CommandesPage.KeepOthersHit | frontend/src/pages/Commandes.jsx:175 | filtering out an index inside the list removes exactly that line |
| CommandesPage.RemoveItemField | frontend/src/pages/Commandes.jsx:173-181 | a line is removed only when more than one exists; a single line is kept |
| CommandesPage.RemoveKeepsOneLine | frontend/src/pages/Commandes.jsx:173-181 | removing a line never leaves the form without lines |
| CommandesPage.RemoveItemTotal | frontend/src/pages/Commandes.jsx:173-189 | removing a line takes its `price * quantity` off the total |
| CommandesPage.BlankLinesKeepReste | frontend/src/pages/Commandes.jsx:184-195 | blank lines added to the form do not change `reste = total - avance` |
| CommandesPage.BlankLinesTotal | frontend/src/pages/Commandes.jsx:184-189 | blank lines total 0 |
| CommandesPage.SearchAllowedIffValid | frontend/src/pages/Commandes.jsx:120-133 | a search request is sent exactly when the code is six characters from A-Z0-9, and such a request never gets the server's 400 |
| CommandesPage.DropId | frontend/src/pages/Commandes.jsx:95-97 | the list filter removes exactly the deleted id |
| CommandesPage.DeleteCommande | frontend/src/pages/Commandes.jsx:85-111 | a delete request is sent exactly when the confirmation is "2003"; after a successful delete the order is gone from the list and from the detail view if shown; otherwise the page is unchanged |
| CommandesPage.PayRequest | frontend/src/pages/Commandes.jsx:830-832 | the pay button sends a request exactly when `reste > 0`, and sends `avance = total` |
| CommandesPage.PayButtonSettles | frontend/src/pages/Commandes.jsx:60-65 | that request passes the server's `avance <= total` check and the schema, so the order ends with `reste` 0 |
| CommandesPage.OrderForm.constructor | frontend/src/pages/Commandes.jsx:20-25 | the form starts empty with `avance` 0 and one blank line |
| CommandesPage.OrderForm.ChangeItem | frontend/src/pages/Commandes.jsx:154-163 | editing a field changes that field of that line only: the name as typed, price and quantity as numbers |
| CommandesPage.OrderForm.ChangeItemTotal | frontend/src/pages/Commandes.jsx:154-189 | the total after an edit is the old total less the old line's product plus the new one's |
| DateFormat.LastTwo | frontend/src/pages/Commandes.jsx:268 | `slice(-2)` keeps the last two characters, or the whole string when shorter |
| DateFormat.LastTwoDigits | frontend/src/pages/Commandes.jsx:268 | for a year of at least two digits, the last two characters are digits reading the year modulo 100 |
| DateFormat.Layout | frontend/src/pages/Commandes.jsx:271 | five two-character fields are laid out as `DD/MM/YY HH:mm`, 14 characters with the separators at positions 2, 5, 8 and 11 |
| DateFormat.FieldsRead | frontend/src/pages/Commandes.jsx:266-270 | each padded field is two digits reading the day, the month plus one, the year modulo 100, the hours and the minutes |
| DateFormat.FormatDateLayout | frontend/src/pages/Commandes.jsx:264-272 | formatDate, and formatDateWestern in frontend/src/pages/achat.jsx:99-110 which is the same formatter, give `DD/MM/YY HH:mm` whose fields read back the date's day, month (1 to 12), year modulo 100, hours and minutes |
| DateFormat.FormatDateInjective | frontend/src/pages/Commandes.jsx:264-272 | two dates give the same text exactly when they agree on day, month, hours, minutes and the year modulo 100 |
| DateFormat.SameTextSameParts | frontend/src/pages/Commandes.jsx:264-272 | the same text means the same day, month, hours, minutes and year modulo 100 |
| DateFormat.YearDigitsAgree | frontend/src/pages/Commandes.jsx:268 | years with the same value modulo 100 show the same two digits |
| Text.NatToString | frontend/src/pages/Commandes.jsx:266 | `String(n)` of a natural number is a non-empty run of digits with no leading zero, one character exactly below 10 |
| Text.NatToStringRoundTrip | frontend/src/pages/Commandes.jsx:266 | the digits of `String(n)` read back as `n` |
| Text.PadStart | frontend/src/pages/Commandes.jsx:266 | `padStart` keeps the text at the end, fills the front with the fill character, and reaches the width unless the text is longer |
| Text.PadEnd | frontend/src/pages/Orders.jsx:75 | `padEnd` keeps the text at the front, fills the rest with spaces, and reaches the width unless the text is longer |
| Text.Pad2Digits | frontend/src/pages/Commandes.jsx:266-270 | a number below 100 padded to two characters is two digits reading the number |
| Text.DigitPrefix | frontend/src/pages/Cart.jsx:76 | the digits `parseInt` reads are the longest run of digits at the front |
| Text.ParseInt | frontend/src/pages/Cart.jsx:76 | `parseInt` skips leading white space; a string of digits reads as its value, and a string without any digit is NaN |
| Text.TrimStart | frontend/src/pages/Cart.jsx:76 | the white space `parseInt` skips is the whole run of white space at the front, and nothing more |
| Text.DigitPrefixStops | frontend/src/pages/Cart.jsx:76 | `parseInt` reads digits up to the first character that is not one |
| Text.ParseIntOfDigits | frontend/src/pages/Cart.jsx:76 | digits followed by text that does not start with a digit read as the digits' value |
| Text.ParseIntOfNegative | frontend/src/pages/Cart.jsx:76 | a minus sign, digits and text that does not start with a digit read as the negated value |
| Text.ParseIntRoundTrip | frontend/src/pages/Cart.jsx:76 | `parseInt` of `String(n)` is `n` |
| Text.ToLower | frontend/src/pages/Collection.jsx:80 | lower-casing keeps the length, moves each ASCII or Latin-1 capital to its small letter, keeps every other character, and leaves no capital of those in the result |
| Text.LowerChar | frontend/src/pages/Collection.jsx:80 | a capital moves 32 code points down to a letter that is not a capital; any other character is kept |
| Text.ContainsMeansOccurrence | frontend/src/pages/Collection.jsx:80 | `includes` holds exactly when the text occurs at some position |
| Text.Trim | backend/models/Fournisseur.js:50 | `trim` leaves no ECMAScript white space or line terminator at either end and is empty exactly when the text is all white space |
| Text.TrimCutsSpaces | backend/models/Fournisseur.js:50 | `trim` returns a slice of the text whose cut-off ends are all white space, so with the ends of the result not white space it cuts exactly the leading and trailing runs |
| JsObject.Get | frontend/src/context/ShopContext.jsx:79 | a key reads a value exactly when it is one of the object's keys |
| JsObject.SetGet | frontend/src/context/ShopContext.jsx:77-80 | after `{...o, [k]: v}` the key reads `v` and every other key reads as before |
| JsObject.SetKeys | frontend/src/context/ShopContext.jsx:77-80 | assigning an existing key keeps the key order; a new key goes at the end |
| JsObject.SetUnique | frontend/src/context/ShopContext.jsx:77-80 | assignment keeps the keys distinct |
| JsObject.DeleteGet | frontend/src/context/ShopContext.jsx:91 | after `delete o[k]` the key is gone and every other key reads as before |
| JsObject.DeleteKeys | frontend/src/context/ShopContext.jsx:91 | the keys after `delete` are the old ones less the deleted key |
| JsObject.DeleteUnique | frontend/src/context/ShopContext.jsx:91 | deletion keeps the keys distinct |
| JsObject.SumSet | frontend/src/context/ShopContext.jsx:53-60 | a `reduce` sum over the values changes by the assigned key's new term less its old one |
| JsObject.SumDelete | frontend/src/context/ShopContext.jsx:53-60 | a `reduce` sum over the values loses the deleted key's term |
| JsObject.DeleteGone | frontend/src/context/ShopContext.jsx:91 | deleting an absent key changes nothing |
| ShopCart.FindProduct | frontend/src/context/ShopContext.jsx:123 | `products.find` returns a catalogue product with that id, and none exactly when no product has it |
| ShopCart.AddToCart | frontend/src/context/ShopContext.jsx:63-82 | with product data the key holds the data with `quantity = (old quantity \|\| 0) + quantity`; without, the key holds `(old number \|\| 0) + quantity`; every other key is unchanged and a new key goes at the end |
| ShopCart.UpdateQuantity | frontend/src/context/ShopContext.jsx:84-109 | a quantity of 0 or less deletes the key; otherwise a sweet record keeps its data with the new quantity and anything else becomes the number; every other key is unchanged |
| ShopCart.ClearCart | frontend/src/context/ShopContext.jsx:111-113 | the cleared cart holds no key |
| ShopCart.UpdatersKeepKeysUnique | frontend/src/context/ShopContext.jsx:63-109 | both updaters keep the cart's keys distinct |
| ShopCart.CountAfterAdd | frontend/src/context/ShopContext.jsx:52-82 | adding `quantity` of an item raises getCartCount by exactly `quantity` |
| ShopCart.CountAfterUpdate | frontend/src/context/ShopContext.jsx:52-109 | after updateQuantity the count loses the key's old contribution and gains the new quantity, or nothing when the key was deleted |
| ShopCart.UnknownProductAddsNothing | frontend/src/context/ShopContext.jsx:115-130 | a numeric entry whose product the catalogue does not know adds nothing to getCartAmount |
| ShopCart.KnownProductAddsPrice | frontend/src/context/ShopContext.jsx:115-130 | adding `n` of a known product raises getCartAmount by `n` times its price |
| ShopCart.TypesCountBounds | frontend/src/context/ShopContext.jsx:48-50 | getCartTypesCount lies between 0 and the number of keys |
| ShopCart.SweetNotAType | frontend/src/context/ShopContext.jsx:48-50 | a sweet record compares false with `> 0`, so adding a sweet does not change getCartTypesCount |
| ShopCart.AddTraditionalSweet | frontend/src/context/ShopContext.jsx:133-142 | a sweet goes in under the `traditional_` key built from the stamp and suffix, which isTraditionalItem recognises, with quantity one more than that key held before; every other key is unchanged |
| ServerCart.ValidateCartData | backend/controllers/cartController.js:13-23 | the data passes exactly when `userId`, `itemId` and `color` are all truthy and `color` is a string |
| ServerCart.User.constructor | backend/controllers/cartController.js:33-39 | a user document holds the cart data it was stored with, possibly none |
| ServerCart.AddToCart | backend/controllers/cartController.js:26-67 | with valid data and an existing user, the item/colour count grows by exactly 1, missing levels are created at 0, every other count is unchanged and the item set gains the item; otherwise an error and nothing changes |
| ServerCart.UpdateCart | backend/controllers/cartController.js:70-122 | the update succeeds exactly when the fields are present, the quantity parses to a non-negative integer, the user exists and the entry has a truthy count; 0 deletes the colour and then the item once no colour is left, any other quantity sets the count; every other count is unchanged; a failure changes nothing |
| ServerCart.GetUserCart | backend/controllers/cartController.js:125-149 | a known user's cart is returned, `{}` when the user has none; a missing id or user is an error |
| OrderController.CheckItems | backend/controllers/orderController.js:31-38 | the item checks pass exactly when every item has a non-empty string `productId` and a numeric quantity above 0; otherwise the error names the first bad index, and says which check failed there |
| OrderController.ValidateOrderData | backend/controllers/orderController.js:18-39 | the data passes exactly when the items are a non-empty array, the amount is a number above 0, the address is a non-empty string and every item passes; the checks are made in that order, and the first failing one is reported |
| OrderController.NormaliseItem | backend/controllers/orderController.js:53-58 | an item keeps its product id and quantity, with `price \|\| 0` and `name \|\| "Unknown"` |
| OrderController.NormaliseItems | backend/controllers/orderController.js:53-58 | the items are normalised one by one, in order |
| OrderController.UserIdOr | backend/controllers/orderController.js:46 | a missing user id becomes "guest", a given one is kept |
| OrderController.PlaceOrder | backend/controllers/orderController.js:41-87 | placeOrder is refused (400) exactly when validation fails or an item price, after `|| 0`, cannot be cast to a number by the schema, with the validator's error or the first such price; otherwise the order has the user id or "guest", the normalised items, the amount, the address, payment method "COD", payment false and status "Order Placed", and the cart is cleared exactly when the user is not "guest" |
| OrderController.PlaceOrderStripe | backend/controllers/orderController.js:183-246 | placeOrderStripe refuses the same requests with the same error, answered 500 by `handleError`; the stored order has the amount plus the delivery charge of 10, payment method "Stripe", payment false and status "Payment Pending" |
| OrderController.PlacedOrdersSchemaValid | backend/models/orderModel.js:5-19 | every order either handler creates satisfies the order schema: required fields present and every item price castable to a number |
| OrderController.CheckPrices | backend/models/orderModel.js:10 | the price check passes exactly when every item's price is falsy or castable to a number; otherwise it names the first that is not |
| OrderController.Refusal | backend/controllers/orderController.js:49-66 | a request is refused exactly when it is not storable: the validator's error when validation fails, otherwise the cast error of the first item whose price cannot be cast |
| OrderController.TextPrices | backend/models/orderModel.js:10 | the request the validator accepts with price "abc" is refused with the cast error of item 0, and the same request with price "12.5" is placed |
| OrderController.StripeAndCodAgree | backend/controllers/orderController.js:41-206 | the two handlers accept the same requests, and the card order differs from the cash order only in amount (plus 10), method and status |
| OrderController.UpdateStatus | backend/controllers/orderController.js:134-181 | 400 with nothing changed when the id or status is missing or the status is not one of the five; 404 when the order does not exist; otherwise only that order's status changes |
| OrderController.UpdateStatusKeepsStatuses | backend/controllers/orderController.js:145-164 | status updates keep every stored status within the five allowed ones plus "Payment Pending" |
| OrderController.VerifyStripe | backend/controllers/orderController.js:248-275 | only `success === "true"` marks the order paid with status "Order Placed", clearing a non-guest user's cart; any other value deletes the order; a missing id or order is an error that changes nothing |
| OrderController.PaidCardOrderIsPlaced | backend/controllers/orderController.js:183-275 | a card order that is then verified ends as the cash order would be, with the delivery charge added, method "Stripe" and payment true, and clears the same cart |
| EmployerModel.ParseCategory | backend/models/employerModel.js:20-24 | a job category is accepted exactly when it is one of Boulanger, Pâtissier, Plongeur, Vendeur, Manager, and the accepted value is the one named |
| EmployerModel.CategoryNameParses | backend/models/employerModel.js:20-24 | every one of the five categories passes the enum validator and comes back as itself |
| EmployerModel.Age | backend/models/employerModel.js:36-46 | the computed age is the number of birthdays reached: the `age`-th anniversary of the birth date is on or before today and the next one is after today |
| EmployerModel.AgeOnBirthday | backend/models/employerModel.js:39-44 | on the birthday itself no year is taken off: the age is the difference of the years |
| EmployerModel.AgeDayBefore | backend/models/employerModel.js:42-45 | the day before the birthday (same month) the age is the difference of the years less one |
| EmployerModel.AgeMonotone | backend/models/employerModel.js:38-46 | the age computed on a later day is never smaller than the one computed on an earlier day |
| EmployerModel.Employer.constructor | backend/models/employerModel.js:3-33 | a new employee document holds the fields it was given and has no age yet |
| EmployerModel.Employer.Save | backend/models/employerModel.js:3-48 | the save succeeds exactly when the required fields are present and the category is in the enum; it then sets the age from the birth date and the day of the save, whatever the age was before, and changes no other field; a failed save changes nothing |
| EmployerPage.BlankRow | frontend/src/pages/employer.jsx:193-203 | a new row belongs to the table it is added to, carries the given id and is not saved |
| EmployerPage.SetSaved | frontend/src/pages/employer.jsx:242-290 | the rows whose id is the item's are replaced by the item with the saved flag set as asked; every other row and the length are unchanged |
| EmployerPage.SaveIdempotent | frontend/src/pages/employer.jsx:242-268 | saving the same item twice leaves the table as saving it once |
| EmployerPage.EditUndoesSave | frontend/src/pages/employer.jsx:242-290 | editing a row just saved gives back the table as it was before the save |
| EmployerPage.WithoutId | frontend/src/pages/employer.jsx:292-303 | the filtered table holds exactly the rows whose id differs from the deleted one, and is no longer |
| EmployerPage.DeleteRows | frontend/src/pages/employer.jsx:292-305 | a delete never leaves a table empty: the rows without the id, or one blank row when none is left; no row with the deleted id survives apart from that blank row |
| EmployerPage.WithoutIdOfTable | frontend/src/pages/employer.jsx:292-303 | deleting keeps every row of a table of that table's kind |
| EmployerPage.SetSavedOfTable | frontend/src/pages/employer.jsx:242-290 | saving or editing keeps every row of a table of that table's kind |
| EmployerPage.ArticlesTotalAppend | frontend/src/pages/employer.jsx:106-109 | the articles total of two lists put together is the sum of their totals |
| EmployerPage.AddArticleRowKeepsTotal | frontend/src/pages/employer.jsx:106-109 | adding a blank article row does not change the total, since an empty price counts as 0 |
| EmployerPage.TakenTruthyIsTakenBy | frontend/src/pages/employer.jsx:135-137 | leaving out the rows with an empty advance, as the name branch does, does not change what the employee has taken |
| EmployerPage.TakenByUpdate | frontend/src/pages/employer.jsx:144-151 | replacing one row changes an employee's taken sum by the new row's advance less the old row's |
| EmployerPage.Named | frontend/src/pages/employer.jsx:146-147 | the rows kept for one employee are exactly the table's advance rows with that name, in table order |
| EmployerPage.AsWrittenMiscounts | frontend/src/pages/employer.jsx:143-151 | on a table whose first row is another employee's, the advance branch as written sums 14 where the employee's advances add up to 27 |
| EmployerPage.CeilDiv | frontend/src/pages/employer.jsx:179 | the rounded-up quotient is the least whole number of divisor-sized steps that covers the dividend |
| EmployerPage.AbsenceDays | frontend/src/pages/employer.jsx:174-182 | an absence lasts at least one day, exactly one when it starts and ends at the same instant, and otherwise one more than the number of whole days needed to cover the gap |
| EmployerPage.AbsenceDaysSymmetric | frontend/src/pages/employer.jsx:178-179 | swapping the start and end dates gives the same day count |
| EmployerPage.AbsenceDaysWholeDays | frontend/src/pages/employer.jsx:178-179 | an end `k` whole days after the start counts `k + 1` days, both ends included |
| EmployerPage.TotalAbsenceDaysBounds | frontend/src/pages/employer.jsx:327-331 | an employee's total absence days are never negative, and the totals of two different employees together never exceed the days of all the rows with a positive count |
| EmployerPage.FindEmployee | frontend/src/pages/employer.jsx:130 | the employee found has the given full name and is in the list; none is found only when no employee has that name |
| EmployerPage.Page.constructor | frontend/src/pages/employer.jsx:5-18 | the page opens with one blank row per table, an empty code, no message, no modal and nothing pending |
| EmployerPage.Page.ConfirmDelete | frontend/src/pages/employer.jsx:205-212 | asking to delete records the action, the row and the table, opens the delete modal and clears the code and the error; the tables are unchanged |
| EmployerPage.Page.ConfirmEdit | frontend/src/pages/employer.jsx:214-221 | asking to edit records the row and the table, opens the edit modal and clears the code and the error; the tables are unchanged |
| EmployerPage.Page.SetRows | frontend/src/pages/employer.jsx:242-324 | one table is replaced and the others, the code and the pending action are unchanged |
| EmployerPage.Page.ExecuteAction | frontend/src/pages/employer.jsx:223-240 | with a code other than "2345" only the error message is set; with "2345" the pending delete (one row or the whole table) or edit is applied to its table alone, the modal closes and the code and pending row are cleared |
| EmployerPage.Page.SaveItem | frontend/src/pages/employer.jsx:242-268 | the table's rows with the item's id become the item marked saved; the other tables are unchanged |
| EmployerPage.Page.AddRow | frontend/src/pages/employer.jsx:193-203 | a blank row stamped with the current time is appended to one table; the others are unchanged |
| EmployerPage.Page.ChangeAdvance | frontend/src/pages/employer.jsx:125-167 | only row `index` changes, in the edited field; when its name is an employee's the row gets the weekly salary and a remaining equal to that salary less everything the employee has taken in the updated table; otherwise salary and remaining are kept |
| EmployerPage.Page.ChangeAbsence | frontend/src/pages/employer.jsx:169-191 | only row `index` changes, in the edited field; once both dates are set, changing either recomputes the day count from them, and otherwise the count is kept |
| Collection.Remove | frontend/src/pages/Collection.jsx:71 | the filtered list holds exactly the values of the old one other than the removed value |
| Collection.RemoveAppended | frontend/src/pages/Collection.jsx:70-72 | removing a value just appended to a list that lacked it gives the list back unchanged |
| Collection.ToggleFilter | frontend/src/pages/Collection.jsx:68-74 | the toggled value is in the result exactly when it was not in the old list; every other value keeps its membership |
| Collection.ToggleTwice | frontend/src/pages/Collection.jsx:68-74 | toggling the same value twice restores every value's membership, and restores the list itself when the value was absent |
| Collection.ApplyFilter | frontend/src/pages/Collection.jsx:76-92 | a product is kept exactly when it is in the catalogue, its lower-cased name contains the lower-cased search text (when there is one) and its category is selected (when any is) |
| Collection.ApplyFilterSubsequence | frontend/src/pages/Collection.jsx:76-92 | the filtered products keep the catalogue's order |
| Collection.Insert | frontend/src/pages/Collection.jsx:98-100 | inserting a product adds exactly that product to the list's contents |
| Collection.InsertSorted | frontend/src/pages/Collection.jsx:98-100 | inserting into a price-ordered list keeps it ordered |
| Collection.SortBy | frontend/src/pages/Collection.jsx:98-100 | the sorted list is a permutation of the input, ordered by price ascending or descending as asked |
| Collection.ApplySorting | frontend/src/pages/Collection.jsx:94-104 | "low" gives a permutation in ascending price, "high" one in descending price, any other sort type the list as it was |
| Collection.GetPaginatedProducts | frontend/src/pages/Collection.jsx:113-117 | page `p` is the slice from `(p - 1) * 10` to `p * 10`, cut at the end of the list, empty past the end, and never more than 10 products |
| Collection.TotalPages | frontend/src/pages/Collection.jsx:119 | the page count is the least number of 10-product pages that holds the list |
| Collection.PagesFromRest | frontend/src/pages/Collection.jsx:113-119 | the pages from `from` to the last, put together, are the list from the first product of page `from` on |
| Collection.PagesCoverList | frontend/src/pages/Collection.jsx:113-119 | pages 1 to `totalPages` put together are the whole list, and a page is non-empty exactly when its number is at most `totalPages` |
| Collection.CalculateSweetPrice | frontend/src/pages/Collection.jsx:44-54 | an empty input or a weight that is not a positive number costs 0; otherwise the price is the weight in grams times the base price per kilogram over 1000 |
| Collection.SweetPriceMonotone | frontend/src/pages/Collection.jsx:53 | a heavier sweet never costs less |
| Collection.FindSweet | frontend/src/pages/Collection.jsx:129 | the sweet found is in the list and its id, written in decimal, is the key; none is found only when no sweet has that id |
| Collection.AddSelectedProductsOthers | frontend/src/pages/Collection.jsx:122-126 | the product loop touches no key that was not selected |
| Collection.AddSelectedProductsChosen | frontend/src/pages/Collection.jsx:122-126 | a selected product already held with a truthy entry is left as it was; any other selected product gets its selected quantity added to what the cart held |
| Collection.SweetKeyInjective | frontend/src/pages/Collection.jsx:130-133 | two different sweet ids never share a `traditional_` cart key |
| Collection.AddChosenSweet | frontend/src/pages/Collection.jsx:129-138 | one sweet step changes only that sweet's `traditional_` key, and sets it to what adding that sweet gives |
| Collection.AddSelectedSweetsOthers | frontend/src/pages/Collection.jsx:128-139 | the sweet loop touches no key that is not a chosen sweet's |
| Collection.AddSelectedSweetsChosen | frontend/src/pages/Collection.jsx:128-139 | each chosen sweet's key ends as adding that sweet on its own gives: unchanged when the cart held it or the sweet is unknown, the sweet's name, price and weight otherwise |
| Collection.AddAllProduct | frontend/src/pages/Collection.jsx:121-142 | after "add all", a selected product's entry is what the product loop gives it, whatever the sweet loop does |
| Collection.AddAllSweet | frontend/src/pages/Collection.jsx:121-142 | after "add all", a chosen sweet's entry is what the sweet loop gives it |
| Collection.AddAllToCart | frontend/src/pages/Collection.jsx:121-142 | "add all" leaves every key that is neither a selected product nor a chosen sweet's key as it was |
| Collection.SweetKeyTraditional | frontend/src/pages/Collection.jsx:130 | every sweet's cart key is a traditional-item key |
| Collection.AddAllSkipsHeld | frontend/src/pages/Collection.jsx:121-142 | "add all" leaves every selected product and chosen sweet the cart already holds as it was, adds the selected quantity to every other selected product, and adds every chosen known sweet not yet held |
| CartPage.StringOr | frontend/src/pages/Cart.jsx:46-49 | a form string falling back on its default is never empty when the default is not empty |
| CartPage.SweetLineOf | frontend/src/pages/Cart.jsx:40-52 | a traditional item's line keeps its key as id, has a non-empty name and weight and a non-zero quantity, takes the entry's price and non-zero quantity when there are any, uses the defaults ("حلوى تقليدية", 0, 1, "1kg") for a bare number, and its total is price times quantity |
| CartPage.ProductLineOf | frontend/src/pages/Cart.jsx:55-62 | a product line carries the catalogue product and the cart entry as quantity; its total is quantity times price for a number |
| CartPage.LinesShape | frontend/src/pages/Cart.jsx:38-64 | every sweet line comes from a `traditional_` key of the cart, with total price times quantity; every product line from another key whose product is in the catalogue; neither list is longer than the keys |
| CartPage.Partition | frontend/src/pages/Cart.jsx:33-69 | the loop over the cart's keys builds the sweet lines and the product lines exactly as the per-key definitions give them, in key order |
| CartPage.LinesAppend | frontend/src/pages/Cart.jsx:38-64 | splitting the keys into two runs splits both line lists the same way |
| CartPage.LinesSnoc | frontend/src/pages/Cart.jsx:38-64 | one more key adds that key's line, if any, at the end of its list |
| CartPage.SweetsFromKeys | frontend/src/pages/Cart.jsx:40-52 | there is a sweet line for a key exactly when the key is in the cart and starts with `traditional_` |
| CartPage.ProductsFromKeys | frontend/src/pages/Cart.jsx:53-62 | there is a product line for a key exactly when the key is in the cart, is not a `traditional_` key and names a catalogue product |
| CartPage.LinesMatchAmountOver | frontend/src/pages/Cart.jsx:44-62 | over any run of cart keys, the line totals add up to the cart amount over those keys |
| CartPage.SumByIsAmountOver | frontend/src/context/ShopContext.jsx:115-130 | the cart amount summed entry by entry equals its definition over the cart's keys |
| CartPage.LineTotalsAreCartAmount | frontend/src/pages/Cart.jsx:33-69 | the page's line totals add up to `getCartAmount` for the same cart |
| CartPage.ClampQuantity | frontend/src/pages/Cart.jsx:76 | the quantity is always between 1 and 99: the parsed number when it is in range, 99 above it, 1 when the input does not parse or is 0 or less |
| CartPage.HandleQuantityChange | frontend/src/pages/Cart.jsx:75-78 | the product's count becomes the clamped quantity and no other entry changes |
| CartPage.HandleRemove | frontend/src/pages/Cart.jsx:71-73 | the entry is gone from the cart and no other entry changes |
| CartPage.ProductItem | frontend/src/pages/Cart.jsx:86-92 | an order item from a product is not traditional and carries the product's id |
| CartPage.SweetItem | frontend/src/pages/Cart.jsx:95-103 | an order item from a sweet is traditional and carries the sweet's cart key as id |
| CartPage.PlaceOrderItems | frontend/src/pages/Cart.jsx:80-104 | nothing is sent when both lists are empty; otherwise the items are the products' items followed by the sweets' items, in order, and an item is traditional exactly when it comes after the products |
| CartPage.SweetItemsNameWeight | frontend/src/pages/Cart.jsx:98 | a sweet's order item name is its name followed by its weight in parentheses |
| Achat.PurchaseIds | frontend/src/pages/achat.jsx:26 | the ids collected are exactly the ids of the purchases that have one, and no more than there are purchases |
| Achat.SyncRequest | frontend/src/pages/achat.jsx:26-40 | no request is made exactly when no purchase has an id; otherwise the request carries those ids |
| Achat.SyncWithAdmin | frontend/src/pages/achat.jsx:22-59 | without a request or with a failed answer the purchases are unchanged; otherwise a purchase is kept exactly when it has no id or its id is among the existing orders reported |
| Achat.SyncKeepsOrder | frontend/src/pages/achat.jsx:47-49 | the synced purchases keep their order |
| Achat.SyncIdempotent | frontend/src/pages/achat.jsx:47-49 | syncing again with the same answer changes nothing |
| Achat.FilterLowersTotal | frontend/src/pages/achat.jsx:62 | dropping purchases never raises the total of non-negative amounts, and the total stays non-negative |
| Achat.SyncNeverRaisesTotal | frontend/src/pages/achat.jsx:47-62 | after a sync the total of all purchases is never larger than before |
| Achat.GetStatusStyle | frontend/src/pages/achat.jsx:65-96 | completed, pending and cancelled get their own label and colour, and the label "تم الشراء" is given exactly to every other status |
| Achat.StatusLabelsDistinct | frontend/src/pages/achat.jsx:65-96 | two statuses get the same label exactly when they get the same style |
| Receipt.ShowInt | frontend/src/pages/Orders.jsx:75 | `toString` of an integer starts with a minus sign exactly when it is negative, and is otherwise made of digits |
| Receipt.ShowIntReadsBack | frontend/src/pages/Orders.jsx:75 | `parseInt` reads the integer back from its text, whatever non-digit text follows |
| Receipt.ToFixed2 | frontend/src/pages/Orders.jsx:76 | `toFixed(2)` of a whole amount ends in ".00" and is otherwise made of digits, a sign and the point |
| Receipt.ToFixed2ReadsBack | frontend/src/pages/Orders.jsx:76 | the text before ".00" is the amount's own: `parseInt` reads the amount back |
| Receipt.LastN | frontend/src/pages/Orders.jsx:63 | `slice(-6)` gives the last six characters, or the whole id when it is shorter |
| Receipt.ShownName | frontend/src/pages/Orders.jsx:74 | a name of more than 16 characters is shown as its first 13 and "..."; a shorter one as it is; never more than 16 |
| Receipt.GenerateEscPosCommands | frontend/src/pages/Orders.jsx:37-95 | the pushes, one per item inside the loop, joined give the receipt the command list defines |
| Receipt.ConcatAppend | frontend/src/pages/Orders.jsx:94 | joining two command lists put together is joining each and putting the results together |
| Receipt.ReceiptCommandsEnds | frontend/src/pages/Orders.jsx:41-92 | the first command is ESC @, the second ESC t 8 and the last the feed and cut |
| Receipt.ReceiptFrame | frontend/src/pages/Orders.jsx:37-95 | the receipt starts with ESC @ ESC t 8 and ends with three line feeds and GS V 'A' 0x10 |
| Receipt.SizeAlwaysReset | frontend/src/pages/Orders.jsx:48-84 | the size commands of the receipt, in order, are double size, reset, emphasised, reset, emphasised, reset: every size change is followed by a reset before the next |
| Receipt.ItemLineIsOneLine | frontend/src/pages/Orders.jsx:77 | an item whose name has no line break prints exactly one line, ended by its line feed |
| Receipt.OneLinePerItem | frontend/src/pages/Orders.jsx:73-78 | the item section holds exactly as many line feeds as there are items |
| Receipt.RowColumns | frontend/src/pages/Orders.jsx:77 | a row has the name in columns 0-19, a space, the quantity in columns 21-22 and six spaces before the price |
| Receipt.ItemLineColumns | frontend/src/pages/Orders.jsx:74-77 | an item line has the shortened name padded to 20, a space, the quantity right-aligned in 2 and six spaces before the price |

## Notes on the code

- A voucher's `isPaid` flag is set only by a payment that brings its paid
  part up to its amount, and is never cleared.  A voucher of amount 0 is
  therefore created unpaid and stays so until some payment reaches it,
  although its paid part already covers its amount.  The model follows the
  code: `Fournisseur.Sound` admits exactly that case.
- The code accepts negative voucher amounts (`parseFloat(amount) || 0`)
  and does not check that a payment is positive.  The voucher invariants
  are therefore stated for non-negative amounts, and the lemmas say so in
  their preconditions; the operations themselves take any amount.
- The custom-order page draws its own six-character code
  (frontend/src/pages/Commandes.jsx:49-58) exactly as the back end does;
  `OrderCode.GenerateCode` models both.

## Left out

- Persistence: MongoDB reads and writes, `localStorage`, uploaded-file moves and deletions on disk.  Documents are class instances or values, the image store a set of names, the order store a map.
- The clock, `Math.random`, `Date.now` ids and generated file names: they are parameters.
- Floating point: money is a whole number; `toFixed(2)` is applied to whole amounts; `Intl.NumberFormat` and the Stripe `unit_amount` scaling are not modelled.
- Locale-formatted dates and times (`toLocaleDateString`, `toLocaleTimeString` on the receipt): the strings are parameters.
- `Date` millisecond arithmetic beyond whole stamps: dates are integer millisecond stamps or (year, month, day) triples.
- Stripe session creation, Cloudinary, the JWT check and the printer (WebUSB, server fallback, `window.print`): foreign calls.
- The read-only and thin endpoints (`getAllFournisseurs`, `getFournisseurById`, `toggleHiddenFournisseur`, `getBonneImages`, `getBonneDetails`, `getAllCommandes`, `allOrders`, `userOrders`, `deleteOrder`): each is one database call with a not-found branch.
- Rendering, icons, modals' markup, success messages and their timeouts.
- Concurrency: two requests on the same document are not interleaved; each operation is one sequential read-modify-write.
- The database's unique indexes (`cin`, the order `code`) and the race between the code lookup and the insert: a code's uniqueness is the lookup in the set of taken codes.
- Malformed database ids (a Mongoose `CastError`): an id either names a document or does not.
- The `hireDate` default and the timestamps Mongoose adds.
- The `image` field the shop sends with each order item: the order schema does not keep it.
- `handleArticleChange` and the date and time stamps the employee page writes into edited rows: they only copy a field and the current time.
- `handleItemChange` on the custom-order page mutates the item objects it shares with the previous state; the model replaces the edited item and leaves the aliasing out.
- `updateTraditionalSweetSelection` and `getTotalAmount` on the collection page: the selection is a parameter of "add all", and the page's running total is display only.
- The status text shown for an order (`getStatusText`) and the purchase history's icons.
- Collection.SortBy: the order of products with the same price is not stated; `Array.prototype.sort` is stable and the model's insertion sort is too, but no lemma says so.
- CartPage.ProductLineOf: a sweet record stored under a plain key would give a `NaN` total; the model returns no total there.
- Collection.AddAllToCart: a chosen sweet's stored price is `priceOf(sweet, weight)`, a parameter standing for `calculateSweetPrice`; cart money is a whole number while `calculateSweetPrice` returns a fraction of the kilogram price, so the model does not tie the two (`Collection.CalculateSweetPrice` is modelled on its own, over reals).
- Collection.AddSelectedSweetsChosen: the same `priceOf` parameter; the lemma holds for any price function.
- Text.ToLower: only the ASCII and Latin-1 capitals are lowered; the other Unicode case mappings (Greek, Cyrillic, Latin Extended, and `İ` which lowers to two characters) are not modelled, and the product names the filter compares are Arabic or French.
- Text.ParseInt: only decimal text is read; the "0x" prefix that makes `parseInt` read hexadecimal is not modelled.
- OrderController.CheckPrices: `Number(text)` also accepts exponents, "Infinity", "0x"/"0o"/"0b" literals and surrounding white space; the model counts those prices as not castable.
- OrderController.Refusal: the schema reports every price that fails the cast, in a message quoting the value; the model names the first such item and its message is a fixed text.
- ShopCart.AddToCart: adding a plain quantity to a key that holds a sweet record concatenates an object with a number in the code; the model requires that this does not happen.
- ShopCart.GetCartCount: a sweet record whose quantity is 0 would be concatenated as an object in the code; the model counts it as 0.
- ServerCart.UpdateCart: a colour sent as a non-string truthy value is accepted by the code and used as a key; the model takes colours as strings.
- CommandeController.UpdateAvance: an advance that is not a number is not modelled (the cast error on save); the advance is an integer.
- CommandeController.UpdateStatus: a missing status in the request body is not modelled; the status is a string.

## Findings

| source | as written | input that shows it | evidently intended | confidence | as-written member | corrected member |
|---|---|---|---|---|---|---|
| frontend/src/pages/employer.jsx:146-151 | when an advance is typed, the sum over the employee's rows swaps in the new value at position `idx2` of the rows filtered by name, and compares that with `index`, the row's position in the whole table | rows B 5, A 7, A 20; typing 7 into row 1 (A's first row): A's second row sits at filtered position 1, so 7 is counted twice and the sum is 14 | the sum of the advances of all of A's rows with the new value in row 1, which is 27 | not executed | EmployerPage.AsWrittenMiscounts | EmployerPage.Page.ChangeAdvance |
