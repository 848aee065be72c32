# BlinkBuy storefront: a Dafny model of its page logic

BlinkBuy is a React storefront. This project models the logic its pages and shared
components run in the browser, and proves what that logic promises:

- **Products, Categories and Deals.** Each page filters a product list by search text,
  category and, on Deals, discount. It then sorts the result with the comparator its
  sort drop-down selects. Categories also groups the result by category, and Deals
  counts down to the end of the deal.
- **Cart.** Item quantities change and items are removed, which moves the subtotal.
  The total adds a flat shipping charge.
- **The auth service.** It stores tokens in `localStorage` after the login, register
  and OTP calls, and puts the bearer header on requests.
- **The modals.** The sign-in modal toggles the sign-up modal. Sign-up validates six
  fields, stores the email and registers. The OTP modal has six one-digit slots,
  paste, a five-minute countdown and resend.
- **Contact, the product page's review form and the profile editor.**
- **Shared components.** The class string of the shared button, the product card's
  badge, stars and stock label, the FAQ accordion, and the initials in the navigation
  bar.

Values are modelled as follows:

- Prices are whole cents, ratings are tenths of a star and times are whole milliseconds
  or seconds.
- Strings are sequences of characters. Upper and lower case follow the ASCII letters.
- `localStorage` is a `map<string, string>`.
- A network call is an `Outcome` passed in by the caller: the server's response, or an
  error with an optional message.
- The form library's rules (`required`, `minLength`, `pattern`, `validate`) are one
  small rule engine, `Forms.Validate`. The modules share it.

## Layout of the model

The model has one module per source file, plus four shared modules:

- `Wrappers`: the `Option` type.
- `Text`: digits, decimal text, padding, case mapping, substring search, string
  ordering and joining.
- `Forms`: the field-rule engine and the e-mail pattern.
- `Catalogue`: the product record, the filter, the distinct categories, and a stable
  insertion sort parameterised by an `Ordering`.

Where the source changes state in place, the model uses a class:

- `AuthService.TokenStore`: the storage.
- `Cart.CartPage`: the cart items.
- `VerifyOtp.OtpModal`: an `array` of six slots, plus the focus, the countdown and the
  visibility flag.
- `Signup.SignupModal`.
- `Profile.ProfilePage`.
- `Categories.GroupByCategory`: the `reduce` into groups is a method with a loop.

Each method's postcondition states its new state through a function of the old state.
The lemmas beside those functions state what the pages promise.

## Model

| member | source | states |
|---|---|---|
| Text.DigitsOnly | src/components/modal/VerifyOtp.tsx:128 | `replace(/\D/g, '')` keeps exactly the digits: every digit as often as in the input, no other character |
| Text.DigitsOnlyAppend | src/components/modal/VerifyOtp.tsx:128 | stripping non-digits distributes over concatenation |
| Text.NatToDecimal | src/pages/Deals.tsx:96 | a number's decimal text is all digits, has no leading zero, and reads back as the number; one digit iff below 10, at most two iff below 100 |
| Text.PadStart | src/pages/Deals.tsx:96 | `padStart(width, pad)` keeps the text as a suffix, fills with the pad character and has the larger of the two lengths |
| Text.ZeroPaddingKeepsValue | src/pages/Deals.tsx:96 | left-padding digits with zeros keeps their decimal value |
| Text.ToLower | src/pages/Products.tsx:92 | lower-casing keeps the length, leaves no ASCII capital, turns each capital into its small letter and keeps every other character |
| Text.ToLowerIdempotent | src/pages/Products.tsx:92 | lower-casing twice is lower-casing once |
| Text.LowerOfUpper | src/components/DefaultLayout.tsx:18 | lower-casing after upper-casing is the same as lower-casing |
| Text.ContainsEmpty | src/pages/Products.tsx:92 | `includes("")` holds for every name, so an empty search matches everything |
| Text.LexCompare | src/pages/Products.tsx:98 | the name comparison returns -1, 0 or 1, and 0 exactly for equal names |
| Text.LexCompareAntisymmetric | src/pages/Products.tsx:98 | swapping the names negates the comparison |
| Text.LexCompareTransitive | src/pages/Products.tsx:98 | the name order is transitive, so sorting by name is consistent |
| Text.ConcatOfSingles | src/components/modal/VerifyOtp.tsx:79 | joining one-character slots gives the code whose i-th character is slot i |
| Text.JoinStartsWithFirst | src/components/Button.tsx:55 | `join(' ')` starts with the first part, followed by the separator when there are more |
| Forms.FirstFailure | src/components/modal/Signup.tsx:116-122 | no message iff every rule passes; otherwise the message of a failing rule, the first one |
| Forms.Validate | src/components/modal/Signup.tsx:116-122 | a field is accepted iff it is non-empty and passes all its rules; an empty field gets the `required` message |
| Forms.EmailByScanIsPattern | src/components/modal/Signup.tsx:165 | the address pattern holds iff the split at the first '@' and the last '.' is valid |
| Forms.EmailAccepted | src/components/modal/Signup.tsx:165 | "a@b.com" matches the address pattern |
| Forms.EmailRejectsShortTld | src/components/modal/Signup.tsx:165 | a one-letter top-level domain is rejected |
| Forms.EmailRejectsMissingAt | src/components/modal/Signup.tsx:165 | an address without '@' is rejected |
| Forms.EmailRejectsEmptyDomain | src/components/modal/Signup.tsx:165 | an empty domain before the dot is rejected |
| Forms.EmailHasOneAt | src/components/modal/Signup.tsx:165 | an accepted address has exactly one '@' |
| AuthService.BaseUrl | src/services/AuthService.ts:12 | the configured base URL when set and non-empty, the local default otherwise, never empty |
| AuthService.Authorize | src/services/AuthService.ts:52-58 | the interceptor's headers: a Bearer header from a stored non-empty access token, everything else as given (stated in AuthorizeAddsBearer) |
| AuthService.WithTokens | src/services/AuthService.ts:61-68 | `setAuthTokens` on the storage map: each non-empty token written under its key (stated in TokensWritten, TokensAuthenticate, StaleRefreshTokenSurvives and TokensKeepOtherKeys) |
| AuthService.WithoutTokens | src/services/AuthService.ts:146-149 | `logout` on the storage map: both token keys removed (stated in LogoutClearsSession) |
| AuthService.AfterCall | src/services/AuthService.ts:79-86 | the storage after a credential call: tokens written only on success (stated in CallStoresOnlyOnSuccess) |
| AuthService.AuthorizeAddsBearer | src/services/AuthService.ts:52-58 | a stored access token adds `Authorization: Bearer <token>` and touches no other header; without one the headers are unchanged |
| AuthService.TokensAuthenticate | src/services/AuthService.ts:61-68 | after storing a response the user is authenticated iff the response or the old storage has an access token; a non-empty token is the one stored |
| AuthService.StaleRefreshTokenSurvives | src/services/AuthService.ts:65-67 | a response without a refresh token leaves the old refresh token in place |
| AuthService.TokensKeepOtherKeys | src/services/AuthService.ts:61-68 | storing tokens changes no key other than the two token keys |
| AuthService.LogoutClearsSession | src/services/AuthService.ts:146-149 | logout removes exactly the two token keys, keeps every other entry (the stored email included) and leaves the user unauthenticated |
| AuthService.TokensWritten | src/services/AuthService.ts:61-68 | a non-empty access or refresh token in the response is what is stored under its key afterwards; an empty or missing one leaves the stored value as it was |
| AuthService.CallStoresOnlyOnSuccess | src/services/AuthService.ts:79-86 | a failed call leaves storage as it was; a successful one is exactly `setAuthTokens` of its response, so a non-empty access token authenticates |
| AuthService.ErrorText | src/components/modal/Signup.tsx:100-104 | the server's message when there is a non-empty one, the fallback text otherwise |
| AuthService.TokenStore.IsAuthenticated | src/services/AuthService.ts:152-154 | authenticated iff a non-empty access token is stored |
| AuthService.TokenStore.CurrentUserEnabled | src/services/AuthService.ts:140 | the current-user query runs exactly when the user is authenticated |
| AuthService.TokenStore.RequestHeaders | src/services/AuthService.ts:52-58 | an authenticated store adds `Authorization: Bearer <token>`; otherwise the headers go out unchanged; other headers are never touched |
| AuthService.TokenStore.SetAuthTokens | src/services/AuthService.ts:61-68 | the storage becomes the old storage with the response's tokens written |
| AuthService.TokenStore.Login | src/services/AuthService.ts:79-86 | returns the call's outcome; the storage gains the tokens on success and is unchanged on failure |
| AuthService.TokenStore.Register | src/services/AuthService.ts:99-106 | the same as login, for the register call |
| AuthService.TokenStore.VerifyOtp | src/services/AuthService.ts:119-126 | the same as login, for the OTP call |
| AuthService.TokenStore.Logout | src/services/AuthService.ts:146-149 | the storage loses both tokens and the user is no longer authenticated |
| Cart.TotalCoversShipping | src/pages/Cart.tsx:149 | the total is at least the 5.99 shipping charge, and exactly that for an empty cart |
| Cart.Subtotal | src/pages/Cart.tsx:26-29 | the `reduce` of price × quantity over the items (stated in SubtotalAppend, SubtotalSplit and SubtotalOfPositiveIsNonNegative) |
| Cart.Total | src/pages/Cart.tsx:149 | the subtotal plus 5.99 shipping (stated in TotalCoversShipping and InitialTotals) |
| Cart.SubtotalOfPositiveIsNonNegative | src/pages/Cart.tsx:26-29 | the subtotal of a cart with positive quantities is never negative |
| Cart.SubtotalAppend | src/pages/Cart.tsx:26-29 | the subtotal sums over concatenated item lists |
| Cart.ChangeQuantity | src/pages/Cart.tsx:33-40 | after a quantity change every item left has a positive quantity and the list never grows |
| Cart.BumpAll | src/pages/Cart.tsx:33-39 | the `map` step: item i becomes item i with its quantity moved by the change, floored at zero, when it has the id |
| Cart.ChangeQuantityIsMapThenFilter | src/pages/Cart.tsx:33-40 | a quantity change is the `map` step followed by the positive-quantity `filter`, so every item keeps its place |
| Cart.ChangeQuantityKeepsOthers | src/pages/Cart.tsx:33-40 | a quantity change leaves every item with another id as it was, in order |
| Cart.ChangeQuantityOfTarget | src/pages/Cart.tsx:35-37 | the items with the id are each moved by the change and dropped when they reach zero |
| Cart.ChangeQuantityOfSingle | src/pages/Cart.tsx:35-37 | a single item with the id has quantity q + change afterwards, or is gone if that is not positive |
| Cart.DecrementLastUnitRemoves | src/pages/Cart.tsx:36-40 | decrementing an item with quantity one removes it, like the remove button |
| Cart.IncreaseAddsToSubtotal | src/pages/Cart.tsx:26-40 | increasing by n adds n times the unit price of each item with the id to the subtotal |
| Cart.RemoveItem | src/pages/Cart.tsx:45-47 | removal keeps exactly the items whose id differs |
| Cart.RemoveAbsentItem | src/pages/Cart.tsx:45-47 | removing an id not in the cart changes nothing |
| Cart.SubtotalSplit | src/pages/Cart.tsx:26-29 | the subtotal is the removed items' share plus the rest's |
| Cart.InitialTotals | src/pages/Cart.tsx:5-20 | the initial cart's subtotal is 399.97 and its total 405.96 |
| Cart.CartPage.HandleQuantityChange | src/pages/Cart.tsx:32-42 | the items become the changed list and stay positive |
| Cart.CartPage.HandleRemove | src/pages/Cart.tsx:45-47 | the items lose the id, and the subtotal drops by exactly those items' share |
| Catalogue.Filter | src/pages/Products.tsx:89-94 | the filter keeps exactly the selected products, each as often as in the list, in list order |
| Catalogue.FilterAppend | src/pages/Products.tsx:89-94 | filtering distributes over concatenation |
| Catalogue.FilterKeepsAll | src/pages/Products.tsx:89-94 | a list whose products are all selected is kept whole |
| Catalogue.EmptySearchAllCategories | src/pages/Products.tsx:18-19 | empty search text with "All" selects every product, or every discounted one on Deals |
| Catalogue.Distinct | src/pages/Products.tsx:86 | `[...new Set(s)]` (stated in DistinctMeaning) |
| Catalogue.DistinctMeaning | src/pages/Products.tsx:86 | `new Set` keeps each category once, in order of first appearance, and nothing else |
| Catalogue.CategoryOptions | src/pages/Products.tsx:86 | the drop-down starts with "All" and offers exactly the categories that occur |
| Catalogue.TimesIsProduct | src/pages/Deals.tsx:69-70 | repeated addition is multiplication |
| Catalogue.Compare | src/pages/Products.tsx:95-100 | the pages' comparators, one per ordering (stated in CompareAntisymmetric, CompareTransitive and SortedMeaning) |
| Catalogue.CompareAntisymmetric | src/pages/Products.tsx:95-100 | every page comparator is antisymmetric |
| Catalogue.DiscountCompareTransitive | src/pages/Deals.tsx:69-72 | comparing discounts by cross-multiplication is transitive when the middle price is positive |
| Catalogue.CompareTransitive | src/pages/Products.tsx:95-100 | every comparator is transitive on admissible products |
| Catalogue.Sort | src/pages/Products.tsx:95 | sorting returns a permutation of its input |
| Catalogue.SortSorts | src/pages/Products.tsx:95-100 | the sorted list is in the comparator's order |
| Catalogue.SortKeepsSorted | src/pages/Products.tsx:95-100 | a list already in order comes back unchanged |
| Catalogue.TiesWithMeaning | src/pages/Products.tsx:95-100 | the ties of a product are exactly the list's products that compare equal to it |
| Catalogue.InsertTies | src/pages/Products.tsx:95-100 | inserting a product puts it in front of the products it ties with, or leaves them alone |
| Catalogue.SortStable | src/pages/Products.tsx:95-100 | the sort is stable: for any product, the products comparing equal to it come out in their input order |
| Catalogue.SortStableExample | src/pages/Products.tsx:95-100 | by price ascending, [A 5.00, B 3.00, C 5.00] sorts to [B, A, C] |
| Catalogue.UnorderedKeepsOrder | src/pages/Products.tsx:99 | a comparator that is always 0 leaves the list as it is |
| Catalogue.SortedMeaning | src/pages/Categories.tsx:45-51 | what each ordering means for two positions of a sorted list |
| Catalogue.Visible | src/pages/Products.tsx:89-100 | a page's grid: the filtered products, sorted (stated in VisibleIsSortedSelection) |
| Catalogue.VisibleIsSortedSelection | src/pages/Products.tsx:89-100 | the grid holds exactly the selected products, as often as the catalogue, in the comparator's order |
| Products.OrderingFor | src/pages/Products.tsx:95-100 | "price-asc" selects price ascending, "price-desc" price descending and "name" the name order; any other key compares all equal |
| Products.Shown | src/pages/Products.tsx:89-100 | the Products grid for a search, category and sort key (stated in ShownMeaning) |
| Products.ShownMeaning | src/pages/Products.tsx:89-100 | the grid is the matching products, sorted by price or name when chosen, and in list order otherwise |
| Products.FirstVisitShowsAll | src/pages/Products.tsx:18-20 | on first visit every product is shown, in catalogue order |
| Categories.OrderingFor | src/pages/Categories.tsx:45-51 | "price-desc", "price-asc", "name" and "rating-desc" each select their own comparator; any other key compares all equal |
| Categories.Shown | src/pages/Categories.tsx:39-51 | the Categories list for a search, category and sort key (stated in ShownMeaning) |
| Categories.ShownMeaning | src/pages/Categories.tsx:39-51 | the shown list is the matching products, sorted by rating, price or name when chosen |
| Categories.GroupByCategory | src/pages/Categories.tsx:54-58 | the groups are keyed by the distinct categories in order of first appearance; each group holds that category's products in order, and the sizes add up to the list's length |
| Categories.GroupPush | src/pages/Categories.tsx:55-56 | pushing a product onto its existing group keeps the grouping invariant |
| Categories.GroupCreate | src/pages/Categories.tsx:55-56 | creating the group for a new category keeps the grouping invariant |
| Categories.InCategory | src/pages/Categories.tsx:54-58 | one category's products in list order (stated in InCategoryMeaning) |
| Categories.InCategoryMeaning | src/pages/Categories.tsx:54-58 | a category's group holds exactly the list's products of that category |
| Categories.GroupsPartition | src/pages/Categories.tsx:121 | every product is in exactly its own category's group, and there are no groups iff nothing is shown |
| Deals.MockDealsAreDiscounted | src/pages/Deals.tsx:24-31 | every mock deal is sold below its original price |
| Deals.OrderingFor | src/pages/Deals.tsx:71-76 | each of the five keys selects its comparator, and no key sorts by rating |
| Deals.CrossMultiplied | src/pages/Deals.tsx:69-72 | comparing the shares taken off the price is the same as comparing the cross-products of cents |
| Deals.DealsAreAdmissible | src/pages/Deals.tsx:64 | every product that passes the deals filter has a positive original price |
| Deals.Shown | src/pages/Deals.tsx:61-77 | the Deals grid for a search, category and sort key (stated in ShownMeaning, ShownByDiscountDesc and ShownByDiscountAsc) |
| Deals.ShownMeaning | src/pages/Deals.tsx:61-77 | the grid is the discounted matching products, sorted by price or name when chosen |
| Deals.ShownSortedAndDiscounted | src/pages/Deals.tsx:61-77 | the grid is sorted by the key's comparator and every product on it is discounted, with a positive original price |
| Deals.ShownByDiscountDesc | src/pages/Deals.tsx:69-71 | with "discount-desc" the grid runs from the largest share taken off the price to the smallest |
| Deals.ShownByDiscountAsc | src/pages/Deals.tsx:69-72 | with "discount-asc" the grid runs from the smallest share taken off the price to the largest |
| Deals.TimeLeft | src/pages/Deals.tsx:40-53 | the countdown is zero once the deal is over; otherwise its minutes and seconds are below 60 and it is the remaining time rounded down to the second |
| Deals.TimeLeftUnique | src/pages/Deals.tsx:49-51 | that countdown is the only one that fits the remaining time |
| Deals.DealStartsAtOneDay | src/pages/Deals.tsx:37-38 | exactly 24 hours left shows 24:00:00 |
| Deals.TwoDigits | src/pages/Deals.tsx:96 | the padded field is all digits, reads back as the number and is exactly two characters below 100 |
| Deals.TwoDigitsExamples | src/pages/Deals.tsx:101 | 5 shows as "05" and 24 as "24" |
| VerifyOtp.TypedAcceptedIsSlotOk | src/components/modal/VerifyOtp.tsx:107 | a typed value is accepted iff it is empty or one digit |
| VerifyOtp.PasteSlots | src/components/modal/VerifyOtp.tsx:129-133 | the slots after a paste (stated in PasteKeepsSlotsOk, PasteWritesPrefixOnly and PastedCodeIsFirstSixDigits) |
| VerifyOtp.PasteFocus | src/components/modal/VerifyOtp.tsx:134 | the input focused after a paste (stated in PasteFocusInRange) |
| VerifyOtp.PasteKeepsSlotsOk | src/components/modal/VerifyOtp.tsx:126-135 | after a paste every slot still holds at most one digit |
| VerifyOtp.PasteWritesPrefixOnly | src/components/modal/VerifyOtp.tsx:129-133 | a paste writes the first min(k, 6) digits into the leading slots and keeps every later slot; no digits means no change |
| VerifyOtp.PasteFocusInRange | src/components/modal/VerifyOtp.tsx:134 | the focus after a paste stays on one of the six inputs |
| VerifyOtp.PastedCodeIsFirstSixDigits | src/components/modal/VerifyOtp.tsx:129-133 | pasting six or more digits makes the code the first six of them |
| VerifyOtp.ShortPasteKeepsStaleDigit | src/components/modal/VerifyOtp.tsx:129-133 | pasting "98" over 123456 gives 983456 |
| VerifyOtp.FormatTime | src/components/modal/VerifyOtp.tsx:71-75 | the text is the whole minutes in decimal without padding, ':' and two digits of seconds below 60, and reads back as the number of seconds |
| VerifyOtp.FormatTimeExamples | src/components/modal/VerifyOtp.tsx:71-75 | 270 s shows "4:30", 300 s "5:00" and 9 s "0:09" |
| VerifyOtp.EmailToSend | src/components/modal/VerifyOtp.tsx:80 | the e-mail prop when non-empty, else the stored e-mail, else "" |
| VerifyOtp.MissingDigitText | src/components/modal/VerifyOtp.tsx:186-207 | no message iff all six slots are filled; "All digits are required" when the first is empty, "Please enter a valid OTP" when a later one is |
| VerifyOtp.SubmitDisabled | src/components/modal/VerifyOtp.tsx:215 | Verify is disabled once the time is up or while a call is pending (stated in SubmitOrResend) |
| VerifyOtp.ResendEnabled | src/components/modal/VerifyOtp.tsx:227 | Resend is clickable only once the time is up (stated in SubmitOrResend) |
| VerifyOtp.SubmitOrResend | src/components/modal/VerifyOtp.tsx:215 | submit and resend are never both enabled; at least one is whenever no call is pending |
| VerifyOtp.CompleteCodeIsSixDigits | src/components/modal/VerifyOtp.tsx:79 | a complete code is six digits, the i-th from slot i |
| VerifyOtp.OtpModal.constructor | src/components/modal/VerifyOtp.tsx:29-33 | six empty slots, 300 seconds left and focus on the first input |
| VerifyOtp.OtpModal.Code | src/components/modal/VerifyOtp.tsx:79 | the submitted code is the six slots joined (stated in CompleteCodeIsSixDigits) |
| VerifyOtp.OtpModal.ClearSlots | src/components/modal/VerifyOtp.tsx:44 | `reset()` empties all six slots and keeps each one valid |
| VerifyOtp.OtpModal.Open | src/components/modal/VerifyOtp.tsx:138-143 | opening shows the modal and focuses the first input, keeping the countdown |
| VerifyOtp.OtpModal.Tick | src/components/modal/VerifyOtp.tsx:54-68 | while open and above zero the countdown drops by one second; otherwise it stays put |
| VerifyOtp.OtpModal.Hide | src/components/modal/VerifyOtp.tsx:55-58 | closing resets the countdown to 300 seconds and empties the slots |
| VerifyOtp.OtpModal.TypeInto | src/components/modal/VerifyOtp.tsx:102-113 | an accepted value is written to its slot and a digit moves focus forward except from the last slot; a rejected value changes nothing |
| VerifyOtp.OtpModal.KeyDown | src/components/modal/VerifyOtp.tsx:116-123 | Backspace on an empty slot other than the first moves focus back; anything else keeps focus |
| VerifyOtp.OtpModal.Paste | src/components/modal/VerifyOtp.tsx:126-136 | the slots become the paste of the old slots and the focus moves to the last pasted digit; only the first input has the paste handler, so it takes no index |
| VerifyOtp.OtpModal.WriteDigits | src/components/modal/VerifyOtp.tsx:130-133 | slot j gets digit j for each pasted digit up to the sixth; later slots are untouched |
| VerifyOtp.OtpModal.Resend | src/components/modal/VerifyOtp.tsx:85-99 | an enabled, successful resend restarts the countdown and clears the slots; otherwise nothing changes |
| VerifyOtp.OtpModal.Submit | src/components/modal/VerifyOtp.tsx:37-82 | focus never moves; disabled or incomplete: nothing is sent and slots, countdown and visibility are kept; otherwise the joined code and the chosen e-mail are posted; success clears and closes, failure shows the server's message or "Invalid OTP. Please try again." and keeps slots, countdown and visibility |
| Signup.Errors | src/components/modal/Signup.tsx:116-235 | each of the six fields is accepted exactly under its rule; each field's required message when empty, and the length, pattern or mismatch message when not |
| Signup.Credentials | src/components/modal/Signup.tsx:69-71 | the body of the register call: the e-mail and the password |
| Signup.EmailHandedToOtp | src/components/modal/Signup.tsx:70 | the e-mail stored before registering survives the call and is the one the OTP modal sends |
| Signup.SignupModal.constructor | src/components/modal/Signup.tsx:32-43 | the form starts empty, with the OTP modal hidden and no error |
| Signup.SignupModal.Close | src/components/modal/Signup.tsx:90 | closing hides the modal and keeps the rest |
| Signup.SignupModal.Submit | src/components/modal/Signup.tsx:49-72 | pending or invalid: nothing happens; otherwise the e-mail is stored and the register call made; success opens the OTP modal with an empty form, failure shows the message |
| Login.Errors | src/components/modal/Login.tsx:63-92 | the e-mail is accepted iff it matches the pattern and the password iff it has six or more characters, with the source's messages |
| Login.Mount | src/components/modal/Login.tsx:25 | the sign-up modal starts hidden |
| Login.OpenSignup | src/components/modal/Login.tsx:26-29 | the "Sign Up" link renders the sign-up modal |
| Login.CloseSignup | src/components/modal/Login.tsx:159 | the sign-up modal's close hides it again |
| Login.Close | src/components/modal/Login.tsx:42 | closing the sign-in modal keeps the sign-up flag |
| Login.SignupRoundTrip | src/components/modal/Login.tsx:25-29 | opening then closing sign-up returns the modal to where it was |
| Contact.Errors | src/pages/Contact.tsx:64-117 | name, subject and message are accepted iff non-empty, and the e-mail iff it matches the pattern |
| Contact.SubmitDisabled | src/pages/Contact.tsx:128 | the button is disabled while a submission is in flight (used by AfterSubmit) |
| Contact.AfterSubmit | src/pages/Contact.tsx:26-36 | an enabled, valid submission resets the form to its defaults; anything else leaves it as it is |
| Contact.DefaultsRejected | src/pages/Contact.tsx:17-24 | the empty form is rejected, with each field's required message |
| Contact.SubmitIdempotent | src/pages/Contact.tsx:26-36 | submitting twice ends as submitting once |
| ProductDetail.Errors | src/pages/ProductDetail.tsx:173-190 | a rating is required, and the review is required with at least ten characters, with the source's messages |
| ProductDetail.AddReview | src/pages/ProductDetail.tsx:59-66 | `[...reviews, newReview]` (stated in AddReviewAppends) |
| ProductDetail.AddReviewAppends | src/pages/ProductDetail.tsx:59-67 | a review keeps every earlier one and is appended by "Current User" with the next id and the form's rating and comment; numbering stays 1..n |
| ProductDetail.Submit | src/pages/ProductDetail.tsx:59-69 | a rejected form changes nothing; an accepted one is appended and the form reset |
| ProductDetail.SubmitKeepsNumbering | src/pages/ProductDetail.tsx:59-69 | submitting never drops a review, keeps the ids 1..n, and the reset form cannot be submitted again |
| ProductDetail.InitialReviewsNumbered | src/pages/ProductDetail.tsx:49-57 | the initial reviews are numbered 1 and 2, and the default form is rejected |
| ProductDetail.ProductView | src/pages/ProductDetail.tsx:93-139 | struck price and badge iff discounted, add-to-cart disabled iff out of stock, stars from the rounded rating |
| Profile.WithName | src/pages/Profile.tsx:175 | the name edit sets the name and changes no other field |
| Profile.WithEmail | src/pages/Profile.tsx:186 | the e-mail edit sets the e-mail and changes no other field |
| Profile.WithPhone | src/pages/Profile.tsx:197 | the phone edit sets the phone and changes no other field |
| Profile.EditsCommute | src/pages/Profile.tsx:175-197 | edits of different fields commute, the last edit of a field wins, and "joined" is never edited |
| Profile.ProfilePage.constructor | src/pages/Profile.tsx:133-134 | the page starts not editing, showing the mock user |
| Profile.ProfilePage.ToggleEditing | src/pages/Profile.tsx:160 | Edit/Cancel flips the mode and keeps what was typed |
| Profile.ProfilePage.SetName | src/pages/Profile.tsx:165-175 | while editing (the only time the input exists), the user info becomes the name edit of the old info, mode kept |
| Profile.ProfilePage.SetEmail | src/pages/Profile.tsx:165-186 | while editing, the user info becomes the e-mail edit of the old info, mode kept |
| Profile.ProfilePage.SetPhone | src/pages/Profile.tsx:165-197 | while editing, the user info becomes the phone edit of the old info, mode kept |
| Profile.ProfilePage.HandleSave | src/pages/Profile.tsx:136-139 | saving leaves editing mode and keeps the details as edited |
| Profile.OrderTotal | src/pages/Profile.tsx:228 | quantity × unit price (stated in OrderTotalAdds and PastOrderTotals) |
| Profile.OrderTotalAdds | src/pages/Profile.tsx:228 | an order's total is additive in the quantity: zero for none and the unit price for one |
| Profile.PastOrderTotals | src/pages/Profile.tsx:85-118 | the mock orders total 699.99 and 399.98 |
| Profile.CardFor | src/pages/Profile.tsx:43-69 | the page's own card shows the badge and the struck price iff discounted, and the rating stars |
| Button.VariantClass | src/components/Button.tsx:29-35 | every variant class is "btn-" followed by the variant |
| Button.VariantClassInjective | src/components/Button.tsx:29-35 | different variants get different classes |
| Button.SizeClass | src/components/Button.tsx:38-43 | only the md size has no class |
| Button.TokensShape | src/components/Button.tsx:46-55 | the classes are "btn" and the variant class, then size, "btn-block", "btn-disabled" and the extra classes when present, in that order |
| Button.ClassesStartWithBase | src/components/Button.tsx:46-55 | the class string always starts with the token "btn" |
| Button.BlockIffFullWidth | src/components/Button.tsx:50-51 | "btn-block" appears iff full width is asked for (or passed as the extra class); the same for "btn-disabled" |
| Button.MediumAddsNoToken | src/components/Button.tsx:40 | md adds no token, and lg adds exactly one |
| Button.DefaultClasses | src/components/Button.tsx:15-24 | a button with no props has class "btn btn-primary", type "button" and is enabled |
| Button.Render | src/components/Button.tsx:58-62 | the element has the given type and disabled flag, and a class string starting with "btn" |
| Card.RoundTenths | src/components/Card.tsx:54 | `Math.round` of a rating in tenths is within half a star of it |
| Card.RoundTenthsUnique | src/components/Card.tsx:54 | that rounding is the only whole number within half a star |
| Card.StarsMeaning | src/components/Card.tsx:49-57 | a rating from one to five checks exactly the last coloured star; any other checks none; coloured stars come first |
| Card.StockLabel | src/components/Card.tsx:73-75 | "In Stock" iff in stock, "Out of Stock" otherwise |
| Card.View | src/components/Card.tsx:27-81 | badge and struck price iff discounted, stars from the rounded rating, add-to-cart disabled iff out of stock |
| Card.RatingExamples | src/components/Card.tsx:54-56 | 4.5 rounds to 5 and 4.2 to 4, which checks the fourth star |
| Faq.Toggle | src/pages/FAQ.tsx:43-45 | clicking the open question closes it, and clicking any other opens that one |
| Faq.AtMostOneShown | src/pages/FAQ.tsx:83 | at most one answer is shown, and none at first |
| Faq.ToggleShows | src/pages/FAQ.tsx:43-45 | after a click exactly the clicked answer is shown, unless it was already shown |
| Faq.ToggleTwice | src/pages/FAQ.tsx:43-45 | a second click on the same question restores an open one and otherwise leaves all closed |
| DefaultLayout.FirstChar | src/components/DefaultLayout.tsx:18 | `charAt(0)` is the first character, or "" for an empty name |
| DefaultLayout.Initials | src/components/DefaultLayout.tsx:17-19 | the initials are the upper-cased first letters of the two names |
| DefaultLayout.InitialsExamples | src/components/DefaultLayout.tsx:17-19 | John Doe gives "JD", and "ada" with an empty last name gives "A" |
| DefaultLayout.InitialsAreUpperCase | src/components/DefaultLayout.tsx:17-19 | upper-casing the initials again changes nothing |
| DefaultLayout.AccountArea | src/components/DefaultLayout.tsx:113-141 | the avatar with the initials iff logged in, the "Login" link otherwise |
| DefaultLayout.OpenLogin | src/components/DefaultLayout.tsx:13-15 | the Login link renders the sign-in modal |
| DefaultLayout.CloseLogin | src/components/DefaultLayout.tsx:146 | the sign-in modal's `setShow(false)` takes it out of the tree |
| DefaultLayout.LoginModalFlow | src/components/DefaultLayout.tsx:5-19 | the modal starts closed, opening then closing returns to the start, and the mock user sees the Login link |

## Left out

- Floating point: prices are whole cents and ratings whole tenths. `toFixed(2)` and the
  rounded "% OFF" percentage on the badges are not modelled.
- Card.View: the badge's percentage text is not modelled; only whether the badge
  appears is.
- Deals.ShownByDiscountDesc: discounts are compared exactly, by cross-multiplying
  cents. The page subtracts floating-point percentages, which can rank two nearly
  equal discounts differently.
- Deals.ShownByDiscountAsc: the same exact comparison, in the ascending order.
- Catalogue.Compare: a discount comparison with an original price of 0 is not a
  consistent order. The sort lemmas therefore require positive original prices for
  discount keys. Every product the Deals filter lets through has one.
- Forms.Validate: `minLength` counts characters (Unicode scalar values), while
  JavaScript's `length` counts UTF-16 code units. A name, password or review made of
  characters outside the Basic Multilingual Plane, such as emoji, can pass the page's
  check and fail the model's: one emoji passes `minLength: 2`. Signup.Errors,
  Login.Errors and ProductDetail.Errors inherit this.
- DefaultLayout.FirstChar: returns the first character, while `charAt(0)` returns the
  first UTF-16 code unit, which for an emoji is half of a surrogate pair.
- Text.LexCompare: `localeCompare` is modelled as ordinal comparison of characters.
  Locale collation, Unicode case mapping and normalisation are not modelled;
  `toLowerCase` and `toUpperCase` act on ASCII letters only.
- Categories.GroupsPartition: the groups are returned as keys in first-appearance order
  plus a map. JavaScript's property order for integer-like category names is not
  modelled.
- Clocks and timers: `new Date()`, `setInterval` and the one-second effect re-runs are
  left out. Deals.TimeLeft takes the remaining milliseconds as input, and
  VerifyOtp.OtpModal.Tick is one timer tick. The review date is an input.
- The network, react-query and axios are not modelled. Each call's result is an
  `Outcome` input. Query invalidation, `onSettled`, console logging and retries are
  left out.
- Rendering, CSS, DOM focus and the backdrop are not modelled. Focus is an index, and
  each view is a record of what it shows.
- Login: its submit handler only logs the form data. It calls no service and stores
  nothing, so no member models it.
- Signup.SignupModal.Submit: the `onSignup(watch())` callback and the console output
  are left out.
- Signup.Credentials: the model sends e-mail and password. The source posts every form
  field, including the names, the phone and the confirmation.
- Signup: the OTP handler calls a hook inside an event handler, which React refuses
  outside rendering. The request it would send and its effect on the modal are not
  modelled.
- VerifyOtp.OtpModal.Submit: the parent's `onVerify(data.otp)` callback is left out.
  The server response has no such field.
- VerifyOtp.OtpModal.Resend: resending also calls a hook inside an event handler. The
  model takes the resend's success as an input and models only its effect.
- Contact: the one-second simulated delay, the alert and the console output are left
  out. The submitting flag is an input.
- ProductDetail.AddReview: the rating is kept as a number. The radio inputs deliver it
  as the chosen value's text.
- Profile: the saved addresses and payment methods are static display data and are
  left out. The order date's locale formatting is left out.
- The static pages (Home, About, 404, Toast) and the routing are not modelled.

## Behaviour worth noting

- Storing tokens writes each token separately. A response without a refresh token leaves
  an older refresh token in place (AuthService.StaleRefreshTokenSurvives), and an
  empty access token leaves the old one (AuthService.TokensWritten).
- Pasting fewer than six digits keeps the later slots' old digits
  (VerifyOtp.ShortPasteKeepsStaleDigit); they are not cleared.
- The OTP submit button is disabled once the countdown reaches 0 as well as while a
  call is pending (VerifyOtp.SubmitOrResend).
- The sign-in form's submit only logs the form data; it calls no service and stores no
  token.
