# A verified model of a storefront's state logic

This project models the logic of a React storefront and its admin panel in
Dafny, and proves properties of that model. Rendering is not part of it. What
is modelled:

- the product store (`ProductContext`): the initial catalog and the add,
  update and delete operations;
- the admin product table (`ModernProductManager`): the category list, the
  search and category filter, and the add/edit dialog;
- the storefront grid (`ProductGrid`): the category and search filter and the
  "Load More" window;
- the checkout dialog (`CheckoutModal`): items, totals, the customer form, and
  the state after an order is placed;
- the admin page (`Admin.tsx`): the password gate and the dashboard figures;
- the orders table (`OrdersManager`), the contact-form inbox (`FormManager`),
  the payment-method switches (`PaymentMethodsManager`) and the seasonal
  banner (`SeasonalBanner`).

Every list operation is a pure function from the old list to the new one,
which is the argument the component passes to its state setter. Browser
storage, the clock and the cart are parameters.

Modules:

| module | file | what |
|---|---|---|
| `Values` | values.dfy | `Option`; a JavaScript number as an integer or `NaN`; the `x \|\| default` idioms |
| `Seqs` | seqs.dfy | `Array.prototype.filter`, subsequences, `Array.from(new Set(...))` |
| `Text` | text.dfy | ASCII `toLowerCase`, `String.prototype.includes` |
| `Price` | price.dfy | `parseFloat(price.replace(/,/g, ''))` and en-US `toLocaleString` grouping |
| `Catalog` | catalog.dfy | src/contexts/ProductContext.tsx |
| `ProductAdmin` | product_admin.dfy | src/components/admin/ModernProductManager.tsx |
| `Grid` | grid.dfy | src/components/ProductGrid.tsx |
| `Checkout` | checkout.dfy | src/components/CheckoutModal.tsx |
| `AdminPage` | admin_page.dfy | src/pages/Admin.tsx |
| `Orders` | orders.dfy | src/components/admin/OrdersManager.tsx |
| `Messages` | messages.dfy | src/components/admin/FormManager.tsx |
| `Payments` | payments.dfy | src/components/admin/PaymentMethodsManager.tsx |
| `Banner` | banner.dfy | src/components/SeasonalBanner.tsx |

Numbers. Prices are strings such as `"2,500"`. The components read them with
`parseFloat` after removing the commas. The model reads a comma-free string of
decimal digits as its integer value, and anything else as `NaN`. `NaN`
propagates through `+` and `*` as in JavaScript.

Three facts about the code that the model keeps:

- The orders search reads only the order number and the customer name, not
  the e-mail address.
- The checkout total adds no shipping charge to the items.
- The orders list has no setter, and the "Update Status" button has no
  handler, so an order's status never changes.

## Model

| member | source | states |
|---|---|---|
| Values.Plus | src/pages/Admin.tsx:102-105 | JavaScript `+` on numbers: the sum is a number exactly when both operands are, and then it is their sum; `NaN` absorbs |
| Values.Times | src/pages/Admin.tsx:103 | JavaScript `*` on numbers: the product is a number exactly when both factors are, and then it is their product |
| Seqs.FilterDistinct | src/components/admin/ModernProductManager.tsx:175 | filtering a list without repeats gives a list without repeats |
| Seqs.Filter | src/contexts/ProductContext.tsx:122 | `filter` keeps exactly the elements that satisfy the predicate. The result is an order-preserving subsequence; it is the whole list when all pass and empty when none pass |
| Seqs.FilterFusion | src/components/admin/ModernProductManager.tsx:38-51 | two filters in a row equal one filter with the conjunction of the predicates |
| Seqs.FilterExtensional | src/components/ProductGrid.tsx:24-41 | filters with predicates that agree on every element give the same list |
| Seqs.FilterIdempotent | src/contexts/ProductContext.tsx:121-123 | filtering twice with the same predicate equals filtering once |
| Seqs.FilterCounts | src/contexts/ProductContext.tsx:121-123 | a filter keeps every copy of a kept element and no copy of a dropped one |
| Seqs.FilterAppend | src/contexts/ProductContext.tsx:121-123 | filtering a concatenation is the concatenation of the filtered parts |
| Seqs.SubsequenceMembers | src/contexts/ProductContext.tsx:122 | every member of a subsequence is a member of the whole |
| Seqs.SubsequenceReflexive | src/components/admin/FormManager.tsx:78-81 | a list is a subsequence of itself, so "changes nothing" is a special case of "keeps a subsequence" |
| Seqs.FirstIndex | src/components/admin/ModernProductManager.tsx:35 | the position of the first occurrence: it holds the element, and no earlier position does |
| Seqs.Dedup | src/components/admin/ModernProductManager.tsx:35 | `Array.from(new Set(s))` has the same members as `s`, each once, in order of first appearance |
| Text.Lower | src/components/ProductGrid.tsx:35-36 | lower-casing keeps the length and lower-cases each ASCII letter in place |
| Text.IncludesIffOccurs | src/components/ProductGrid.tsx:35-36 | `s.includes(sub)` holds exactly when `sub` occurs in `s` at some position |
| Text.EmptyQueryMatches | src/components/admin/OrdersManager.tsx:77-78 | every string includes the empty string, so an empty search matches everything |
| Text.MatchesIgnoresCase | src/components/ProductGrid.tsx:35-36 | the search gives the same answer for a field and query as for their lower-cased forms |
| Text.LowerIdempotent | src/components/ProductGrid.tsx:35-36 | lower-casing twice equals lower-casing once |
| Price.StripCommas | src/components/CheckoutModal.tsx:41 | `replace(/,/g, '')` leaves no comma and keeps every other character |
| Price.ParsePrice | src/components/CheckoutModal.tsx:41 | the price reads as a number exactly when, without its commas, it is a non-empty digit string; that number is never negative |
| Price.Digits | src/pages/Admin.tsx:209 | the decimal digits of a natural number: non-empty and all digits |
| Price.DigitsValueOfDigits | src/pages/Admin.tsx:209 | reading the digits of `n` gives back `n` |
| Price.Pad3Value | src/pages/Admin.tsx:209 | a group of three digits, zero-padded, reads back as the number below 1000 it was made from |
| Price.DigitsValueAppend3 | src/components/CheckoutModal.tsx:41 | appending a three-digit group multiplies the value by 1000 and adds the group |
| Price.StripCommasAppend | src/components/CheckoutModal.tsx:41 | removing commas distributes over concatenation |
| Price.StripCommasNoCommas | src/components/CheckoutModal.tsx:41 | a digit string has no comma to remove |
| Price.GroupedDigits | src/contexts/ProductContext.tsx:34-103 | a comma-grouped price is, without commas, a non-empty digit string, so it reads as a number |
| Price.Format | src/pages/Admin.tsx:209 | `toLocaleString` spells a natural number with digits and commas only, with a comma exactly from 1000 on |
| Price.JoinParse | src/pages/Admin.tsx:209 | a grouped head, a comma and a three-digit group read as the head's value times 1000 plus the group's value |
| Price.LeadGroupFormat | src/pages/Admin.tsx:209 | a number below 1000 formats as one lead group, which reads back as the number |
| Price.Show | src/pages/Admin.tsx:209 | `toLocaleString()` of a whole number: the text of `NaN` or of a number that is not negative reads back as that number; a negative number prints a minus sign before text that reads as its magnitude |
| Price.FormatStep | src/pages/Admin.tsx:209 | if the thousands of `n` format and read back correctly, so does `n` |
| Price.ParseFormat | src/pages/Admin.tsx:209 | round trip: `toLocaleString` of a natural number is a comma-grouped string that `parseFloat` without commas reads back as the same number |
| Price.ParseThousands | src/contexts/ProductContext.tsx:40 | a price of the form `d,ddd` reads as the four digits' value |
| Catalog.PatchComposition | src/contexts/ProductContext.tsx:118 | spreading two patches in turn equals spreading their merge, in which the later patch wins |
| Catalog.PatchIdempotent | src/contexts/ProductContext.tsx:118 | spreading the same patch twice equals spreading it once |
| Catalog.ApplyPatch | src/contexts/ProductContext.tsx:118 | `{ ...p, ...patch }`: each of the ten fields present in the patch takes the patch's value, each absent one keeps the product's value, and the empty patch changes nothing |
| Catalog.MaxId | src/contexts/ProductContext.tsx:112 | `Math.max(...ids, 0)` is at least 0 and every id, and it is 0 or an existing id |
| Catalog.NextId | src/contexts/ProductContext.tsx:112 | the new id is greater than every id and is either 1 or one more than an existing id, so it is exactly the smallest id above the maximum (1 on an empty catalog) |
| Catalog.Add | src/contexts/ProductContext.tsx:109-115 | `addProduct` appends one product with the given fields and the id `NextId` gives, fresh and greater than every existing id; every earlier product stays, in order |
| Catalog.Update | src/contexts/ProductContext.tsx:117-119 | `updateProduct` keeps length and order, patches exactly the products with the id, and changes nothing for an unknown id |
| Catalog.Delete | src/contexts/ProductContext.tsx:121-123 | `deleteProduct` keeps the products with another id and no product with the id, as an order-preserving subsequence; an unknown id changes nothing |
| Catalog.DeleteKeepsCopies | src/contexts/ProductContext.tsx:121-123 | deleting keeps every copy of a product with another id and no copy of one with the id, so with the subsequence property it keeps exactly the other products |
| Catalog.AddKeepsIdsUnique | src/contexts/ProductContext.tsx:109-115 | adding keeps ids pairwise distinct |
| Catalog.UpdateKeepsIds | src/contexts/ProductContext.tsx:117-119 | an update whose patch has no other id leaves every id as it was |
| Catalog.UpdateKeepsIdsUnique | src/contexts/ProductContext.tsx:117-119 | such an update keeps ids pairwise distinct |
| Catalog.UpdateWithIdKeyCanDuplicate | src/contexts/ProductContext.tsx:118 | a patch carrying another product's id produces two products with the same id |
| Catalog.SubsequenceKeepsIdsUnique | src/contexts/ProductContext.tsx:122 | any subsequence of a catalog with distinct ids has distinct ids |
| Catalog.DeleteKeepsIdsUnique | src/contexts/ProductContext.tsx:121-123 | deleting keeps ids pairwise distinct |
| Catalog.DeleteIdempotent | src/contexts/ProductContext.tsx:121-123 | deleting the same id twice equals deleting it once |
| Catalog.DeleteCommutes | src/contexts/ProductContext.tsx:121-123 | deleting two ids in either order gives the same catalog |
| Catalog.DeleteUndoesAdd | src/contexts/ProductContext.tsx:109-123 | deleting the id that an add just assigned gives back the catalog from before the add |
| Catalog.DeleteAfterUpdate | src/contexts/ProductContext.tsx:117-123 | deleting a product makes an earlier update of it invisible |
| Catalog.SearchMatchesIffOccurs | src/components/ProductGrid.tsx:33-38 | the product search, shared by the grid and the product table, keeps a product exactly when the lower-cased query occurs in its lower-cased name or category |
| Catalog.InitialPricesGrouped | src/contexts/ProductContext.tsx:34-103 | every starting price is a comma-grouped digit string |
| Catalog.InitialCatalogIds | src/contexts/ProductContext.tsx:34-103 | the starting catalog has six products with ids 1 to 6 in order, so the next id is 7 |
| ProductAdmin.CategoriesOf | src/components/admin/ModernProductManager.tsx:35 | `products.map(p => p.category)`, position by position |
| ProductAdmin.Categories | src/components/admin/ModernProductManager.tsx:35 | the category list is "All" followed by each product category exactly once, in order of first appearance |
| ProductAdmin.CategoryOptions | src/components/admin/ModernProductManager.tsx:175 | the category picker offers the product categories other than "All", each once, in the order of the category list |
| ProductAdmin.Filtered | src/components/admin/ModernProductManager.tsx:37-52 | a product is listed exactly when it passes the search (if any) and has the chosen category (unless "all"); an empty search with "all" lists everything |
| ProductAdmin.FilteredIsOnePass | src/components/admin/ModernProductManager.tsx:37-52 | the two-stage filter equals one pass with the combined rule, so the list is an order-preserving subsequence of the catalog |
| ProductAdmin.Submitted | src/components/admin/ModernProductManager.tsx:81-91 | a valid submit writes the four required fields as typed; a present original price, badge, description, rating or stock is written as typed, a missing text as "" and a missing rating or stock as 0 |
| ProductAdmin.SubmittedPatch | src/components/admin/ModernProductManager.tsx:65-75 | the update patch carries no id, and applying it to any product gives that product's id with the submitted fields |
| ProductAdmin.Submit | src/components/admin/ModernProductManager.tsx:54-98 | an incomplete form changes nothing. A complete one closes the dialog with a blank form, and either appends one product with a fresh id or rewrites exactly the edited product |
| ProductAdmin.FormOf | src/components/admin/ModernProductManager.tsx:100-114 | editing fills all nine form fields from the product, with a missing original price, badge or description as "" and a missing stock or rating as 0 |
| ProductAdmin.Edit | src/components/admin/ModernProductManager.tsx:100-114 | editing opens the dialog on that product with the form filled from it |
| ProductAdmin.CloseDialog | src/components/admin/ModernProductManager.tsx:126-140 | closing forgets the edited product and resets the form to blank, so a submit is refused until the required fields are filled again |
| ProductAdmin.EditThenSubmitIsIdentity | src/components/admin/ModernProductManager.tsx:54-114 | opening a fully described product and saving it unchanged leaves the catalog as it was |
| ProductAdmin.ConfirmDelete | src/components/admin/ModernProductManager.tsx:116-124 | deletion happens only when confirmed; a confirmed delete removes exactly the products with that id |
| ProductAdmin.SubmitKeepsIdsUnique | src/components/admin/ModernProductManager.tsx:54-98 | every submit keeps product ids pairwise distinct |
| ProductAdmin.OpenForAdd | src/components/admin/ModernProductManager.tsx:151 | "Add Product" opens the dialog and leaves the edited product and the form as they were |
| ProductAdmin.DismissAsWritten | src/components/admin/ModernProductManager.tsx:235 | dismissing the dialog by Escape or a click outside, as written, only closes it |
| ProductAdmin.DismissAsWrittenThenAddUpdates | src/components/admin/ModernProductManager.tsx:151 | after such a dismissal, "Add Product" followed by a valid submit overwrites the old product and adds nothing |
| ProductAdmin.Dismiss | src/components/admin/ModernProductManager.tsx:126-140 | the corrected dismissal goes through `handleCloseDialog`: closed, nothing edited, blank form |
| ProductAdmin.DismissThenAddAppends | src/components/admin/ModernProductManager.tsx:126-151 | after the corrected dismissal, "Add Product" and a valid submit append exactly one product |
| Grid.SelectedCategory | src/components/ProductGrid.tsx:16 | a category prop is used as given; without one the default "All Products" switches the category filter off |
| Grid.NoPropsShowAll | src/components/ProductGrid.tsx:16-41 | with no category prop and no search the grid lists the whole catalog, in order |
| Grid.Filtered | src/components/ProductGrid.tsx:24-41 | a product is shown exactly when it has the selected category (unless none or "All Products") and passes the search (if any); with neither, all products are shown |
| Grid.FilteredIsOnePass | src/components/ProductGrid.tsx:24-41 | the two-stage filter equals one pass with the combined rule, so the grid is an order-preserving subsequence of the catalog |
| Grid.LoadMore | src/components/ProductGrid.tsx:51-53 | "Load More" widens the window by six, so for every filtered list what was on screen stays as a prefix, and strictly more shows whenever the button was offered |
| Grid.VisibleAfterClicks | src/components/ProductGrid.tsx:22-53 | the window starts at six and each "Load More" adds six, so after `n` clicks it holds `6 * (n + 1)` products |
| Grid.Displayed | src/components/ProductGrid.tsx:58 | the grid shows the first `min(window, filtered)` filtered products, in order |
| Grid.LoadMoreIffHidden | src/components/ProductGrid.tsx:115-125 | the button is offered exactly when some filtered product is off screen, and never with the empty message |
| Grid.LoadMoreExtendsDisplay | src/components/ProductGrid.tsx:51-58 | loading more keeps what is on screen as a prefix and shows more when the button was offered |
| Grid.EnoughClicksShowAll | src/components/ProductGrid.tsx:51-58 | after enough clicks every filtered product is on screen and the button is gone |
| Checkout.Items | src/components/CheckoutModal.tsx:39 | the summary's line amounts add up to the total it prints whenever the cart's total is the sum of its lines; a direct purchase is one line of quantity 1 |
| Checkout.Total | src/components/CheckoutModal.tsx:40-42 | a direct purchase totals exactly its one line's amount, with no shipping added; otherwise the total is the cart's own figure |
| Checkout.LineAmount | src/components/CheckoutModal.tsx:102 | a cart line's amount is its unit price without commas times the quantity, or `NaN` when the price does not read |
| Checkout.LineShown | src/components/CheckoutModal.tsx:102 | a summary line's text reads back as the line's amount: per unit for a direct purchase (the stored price text), and through `toLocaleString()` for a cart line unless the amount is negative |
| Checkout.TotalShown | src/components/CheckoutModal.tsx:110 | the printed total reads back as the total, and for a direct purchase as the product's price |
| Checkout.DirectTotalIsItsLine | src/components/CheckoutModal.tsx:39-42 | for a direct purchase the total is the one line's amount, and the line and the total print texts that read as the same number |
| Checkout.CartSummaryLines | src/components/CheckoutModal.tsx:98-103 | in cart mode the summary has one line per cart line whose text reads back as its amount, and the amounts add up to a number exactly when every line's price reads as one |
| Checkout.InputChange | src/components/CheckoutModal.tsx:74-81 | an input change sets the named field and keeps every other field |
| Checkout.ChoosePayment | src/components/CheckoutModal.tsx:211-215 | the payment choice sets the method and keeps every text field |
| Checkout.InputChangeUndo | src/components/CheckoutModal.tsx:74-81 | typing a value and then the old one back restores the form |
| Checkout.BeginSubmit | src/components/CheckoutModal.tsx:44-46 | starting a submission keeps the form and disables both buttons |
| Checkout.FinishSubmit | src/components/CheckoutModal.tsx:56-71 | finishing clears the cart exactly when nothing was bought directly, closes the dialog, and resets the form |
| Checkout.Submit | src/components/CheckoutModal.tsx:44-72 | after a submission the state is the initial one, both buttons are enabled, and the cart is cleared exactly in cart mode |
| Checkout.SubmitResetsForm | src/components/CheckoutModal.tsx:25-34 | every submission ends in the same state: blank fields and cash on delivery |
| AdminPage.Load | src/pages/Admin.tsx:34-36 | the page opens authenticated exactly when storage holds the admin password |
| AdminPage.Login | src/pages/Admin.tsx:43-58 | the admin password authenticates and stores itself; any other input changes nothing |
| AdminPage.Logout | src/pages/Admin.tsx:60-64 | logging out leaves the page unauthenticated, with no stored password |
| AdminPage.LoginSurvivesReload | src/hooks/useAuth.tsx:20-21 | after a login a reload opens the page again; after a logout it does not |
| AdminPage.OnlyPasswordOpens | src/pages/Admin.tsx:43-58 | a closed gate opens exactly for the admin password |
| AdminPage.StockFromIsSum | src/pages/Admin.tsx:101 | the `reduce` over stocks is the start value plus the sum of the stocks, a missing stock counting 0 |
| AdminPage.ValueFromFinite | src/pages/Admin.tsx:102-105 | the running inventory value is a number exactly when the start is one and every price reads as a number |
| AdminPage.ValueFromIsSum | src/pages/Admin.tsx:102-105 | the `reduce` over values is the start value plus the sum of every product's price times stock |
| AdminPage.TotalStock | src/pages/Admin.tsx:101 | the "Total Stock" figure is the sum of the stocks, a missing stock counting 0 |
| AdminPage.TotalValue | src/pages/Admin.tsx:102-105 | the "Inventory Value" figure is the sum of price times stock over all products, and it is a number exactly when every price reads as one |
| AdminPage.ValueFromAppend | src/pages/Admin.tsx:102-105 | the `reduce` over a concatenation continues from the first part's result |
| AdminPage.SumStockAppend | src/pages/Admin.tsx:101 | the stock sum of a concatenation is the sum of the parts' sums |
| AdminPage.SumValueReadsBack | src/pages/Admin.tsx:102-105 | with no negative stock the inventory value is `NaN` or not negative |
| AdminPage.ValueShown | src/pages/Admin.tsx:209 | with no negative stock the "Inventory Value" card's text reads back as the inventory value |
| AdminPage.Dashboard | src/pages/Admin.tsx:66-105 | the figures exist only behind the gate: the product count, the stock sum, and the sum of price times stock, which is a number exactly when every price reads |
| AdminPage.DashboardAfterAdd | src/pages/Admin.tsx:100-105 | adding a product raises the count by one, the stock by its stock and the value by its price times its stock |
| AdminPage.InitialStock | src/pages/Admin.tsx:101 | the starting catalog holds 240 items in stock |
| Orders.MockOrders | src/components/admin/OrdersManager.tsx:33-64 | two orders, ids 1 and 2, the second stamped one day before the first |
| Orders.MockTotalsMatchItems | src/components/admin/OrdersManager.tsx:33-64 | each mock order's total equals the sum of its items' prices times quantities |
| Orders.StatusColor | src/components/admin/OrdersManager.tsx:66-74 | the badge is gray exactly for a status other than pending, processing, completed and cancelled |
| Orders.StatusColorsDistinct | src/components/admin/OrdersManager.tsx:66-74 | pending, processing, completed and cancelled get four different colours; every other status is gray |
| Orders.Filtered | src/components/admin/OrdersManager.tsx:76-81 | an order is listed exactly when the search matches its number or customer name and the status is "all" or equal; the list is a subsequence |
| Orders.EmptySearchShowsAll | src/components/admin/OrdersManager.tsx:76-81 | an empty search with "all" lists every order |
| Orders.EmailNotSearched | src/components/admin/OrdersManager.tsx:77-78 | orders that differ only in e-mail are listed or hidden together |
| Orders.AtQueryMisses | src/components/admin/OrdersManager.tsx:77-78 | a query with an '@' does not match an order whose number and customer name have none |
| Orders.EmailQueryListsNothing | src/components/admin/OrdersManager.tsx:76-81 | searching for an e-mail address lists nothing when no order number or customer name holds an '@', whatever the e-mail addresses are |
| Orders.LowerKeepsAt | src/components/admin/OrdersManager.tsx:77-78 | lower-casing neither adds nor removes an '@' |
| Orders.NoAtSign | src/components/admin/OrdersManager.tsx:77-78 | a query containing '@' is not found in a field without one |
| Orders.Initial | src/components/admin/OrdersManager.tsx:27-33 | the page starts with the mock orders, an empty search, "all", and no dialog |
| Orders.Step | src/components/admin/OrdersManager.tsx:83-86 | no single event on the page changes the orders |
| Orders.RunKeepsOrders | src/components/admin/OrdersManager.tsx:33 | no sequence of events changes the orders |
| Orders.ViewThenUpdateChangesNothing | src/components/admin/OrdersManager.tsx:237-250 | viewing opens the dialog on that order, and picking a status then pressing "Update Status" changes nothing |
| Messages.MockSubmissions | src/components/admin/FormManager.tsx:31-50 | two submissions, ids 1 and 2, one new and one read |
| Messages.StatusColor | src/components/admin/FormManager.tsx:52-59 | the badge is gray exactly for a string that is no status's label |
| Messages.StatusColorsDistinct | src/components/admin/FormManager.tsx:52-59 | new, read and replied get three different colours, none gray; any other string is gray |
| Messages.Filtered | src/components/admin/FormManager.tsx:61-66 | a submission is listed exactly when the search matches its name or e-mail and the status is "all" or equal; the list is a subsequence |
| Messages.EmptySearchShowsAll | src/components/admin/FormManager.tsx:61-66 | an empty search with "all" lists every submission |
| Messages.PhoneAndMessageNotSearched | src/components/admin/FormManager.tsx:62-63 | the phone number and the message play no part in the search |
| Messages.MarkRead | src/components/admin/FormManager.tsx:73-75 | viewing marks exactly the submissions with that id as read and keeps all others |
| Messages.MarkReadIdempotent | src/components/admin/FormManager.tsx:73-75 | viewing twice equals viewing once, and the viewed submission is read whatever it was before |
| Messages.MarkReadKeepsContent | src/components/admin/FormManager.tsx:73-75 | viewing changes no field but the status |
| Messages.ViewDemotesReplied | src/components/admin/FormManager.tsx:74 | a replied submission that is viewed becomes read |
| Messages.Delete | src/components/admin/FormManager.tsx:78-86 | an unconfirmed delete changes nothing; a confirmed one keeps exactly the submissions with another id, in order |
| Messages.DeleteKeepsOthers | src/components/admin/FormManager.tsx:78-81 | a confirmed delete keeps every copy of the others, drops every copy of the deleted one, and is idempotent |
| Messages.MarkReadAppend | src/components/admin/FormManager.tsx:73-75 | marking read distributes over concatenation |
| Messages.ViewAndDeleteCommute | src/components/admin/FormManager.tsx:68-86 | viewing one submission and deleting another can be done in either order |
| Messages.View | src/components/admin/FormManager.tsx:68-76 | viewing opens the dialog on the submission as clicked and marks it read in the list |
| Messages.DialogShowsStatusBeforeView | src/components/admin/FormManager.tsx:68-76 | the dialog shows the status from before the view while the list already shows it read |
| Payments.With | src/components/admin/PaymentMethodsManager.tsx:39-45 | replacing one method keeps every other method |
| Payments.InitialAllEnabled | src/components/admin/PaymentMethodsManager.tsx:13-36 | all four methods start enabled |
| Payments.Toggle | src/components/admin/PaymentMethodsManager.tsx:38-46 | a toggle flips that method's switch, keeps its other fields, and keeps every other method |
| Payments.ToggleTwice | src/components/admin/PaymentMethodsManager.tsx:38-46 | toggling twice restores the settings |
| Payments.TogglesCommute | src/components/admin/PaymentMethodsManager.tsx:38-46 | toggles of two methods can happen in either order |
| Payments.Step | src/components/admin/PaymentMethodsManager.tsx:38-54 | one event flips a method's switch exactly when it is that method's switch; saving and typing change nothing, and no event changes a method's other fields |
| Payments.SaveAndEditChangeNothing | src/components/admin/PaymentMethodsManager.tsx:48-54 | saving and typing into the uncontrolled detail inputs change nothing |
| Payments.RunFlips | src/components/admin/PaymentMethodsManager.tsx:38-54 | after any events a method is enabled exactly when its start value agrees with the parity of its toggles; its other fields never change |
| Payments.DetailsShownAfter | src/components/admin/PaymentMethodsManager.tsx:94 | from the start, a method's account details are on screen exactly when it was toggled an even number of times |
| Banner.SeasonalContent | src/components/SeasonalBanner.tsx:14-46 | each month gets its entry of the calendar written out month by month |
| Banner.ContentsDistinct | src/components/SeasonalBanner.tsx:14-46 | the three contents have different titles |
| Banner.SeasonsDisjoint | src/components/SeasonalBanner.tsx:11-12 | no month is both winter and summer, so summer months get the summer content |
| Banner.ContentFollowsCalendar | src/components/SeasonalBanner.tsx:10-46 | every month's content agrees with the calendar written out month by month, and each content is chosen exactly in its season |
| Banner.Render | src/components/SeasonalBanner.tsx:6-48 | the banner renders exactly while it is visible, and then it shows the month's entry of the calendar |
| Banner.CloseHidesForGood | src/components/SeasonalBanner.tsx:55 | the banner starts with the month's content and renders nothing after a close, whatever the month |

## Left out

- Rendering: markup, styling, icons, dialogs and toasts are not modelled. Neither are the `date-fns` date formats in the orders and messages tables.
- Browser storage is a value passed in and out: the `adminPassword` entry, or none.
- The clock is a parameter: `getMonth()` becomes a month index, and the mock timestamps are built from a `now` in milliseconds.
- The 1.5-second delay in the checkout submit is not modelled; the submission is one step.
- The cart (`CartContext`) is not part of this model. Its items and `getTotalPrice()` are parameters, and `clearCart()` is a flag in the result.
- Price.ParsePrice: `parseFloat` also reads decimals, signs, leading whitespace and numeric prefixes such as "12abc". The model reads only comma-free digit strings and treats everything else as `NaN`.
- Price.Format: `toLocaleString` is modelled for natural numbers in the en-US locale. Other locales and fractional values are not modelled.
- Price.Show: for a negative number (a negative stock or quantity) the printed text is not promised to read back, because the model's parse reads no sign; it is promised to be a minus sign before text that reads as the magnitude.
- Values.Plus: JavaScript numbers are doubles. Sums above 2^53 round and very large ones overflow to `Infinity`; the model's sum is an exact unbounded integer, so it does not model rounding or overflow.
- Values.Times: likewise, products above 2^53 round and very large ones overflow to `Infinity` in JavaScript; the model's product is exact. The same holds for Price.ParsePrice, which reads a digit string of any length as an exact integer where `parseFloat` would round it.
- Text.Lower: `toLowerCase` is Unicode-aware; the model lower-cases ASCII letters only.
- Ratings are exact rationals (`real`) rather than floating-point numbers. A fractional stock is not modelled.
- Catalog.Update: a patch key explicitly set to `undefined` overwrites the field in JavaScript. The model treats it as absent.
- Product fields that no modelled operation reads are not modelled: `buy_now_link`, `buy_now_text`, `sku`, `color`, `size`, `delivery_charges`, `video_url` and `social_media_link`.
- ProductAdmin.Submit: the form's per-field `onChange` setters are not modelled; a typed form is given whole. The HTML `required` attributes are not modelled either; only the submit handler's own check is.
- Payments.Toggle: the handler accepts any string. It is only ever called with the four method keys, and the model takes a key.
- Checkout.Submit: no validation beyond the HTML `required` attributes exists, so none is modelled.
- The admin password is compared as a plain string. Its security is out of scope.
- The dashboard's value figure for the starting catalog (1,010,380) is not proved. The proof over six literal prices is too costly for the solver; its parts are proved as Price.ParseThousands and AdminPage.DashboardAfterAdd.
- src/components/WhatsAppFloat.tsx, src/pages/Index.tsx and src/components/ProductDetailModal.tsx are not part of this model. They only open windows, wire modals and scroll. src/hooks/useAuth.tsx contributes only the removal of the stored password on sign-out.

## Findings

| source | as written | input that shows it | evidently intended | confidence | as-written member | corrected member |
|---|---|---|---|---|---|---|
| src/components/admin/ModernProductManager.tsx:235 | The dialog's `onOpenChange` is `setIsDialogOpen`. Closing with Escape or a click outside closes the dialog but keeps `editingProduct` and the form. "Add Product" (line 151) only reopens it. | Edit product 1, press Escape, click "Add Product", fill in a new product, save: product 1 is overwritten and nothing is added. | Every way of closing the dialog goes through `handleCloseDialog` (lines 126-140), as Cancel does, so "Add Product" starts from a blank form and adds. | medium, not executed | ProductAdmin.DismissAsWritten, ProductAdmin.DismissAsWrittenThenAddUpdates | ProductAdmin.Dismiss, ProductAdmin.DismissThenAddAppends |
