# Shopease API core in Dafny

This project models the decision rules of the Shopease e-commerce API, an Express and
Mongoose service, and proves properties of them. It covers:

- order pricing and the order lifecycle: create, confirm the payment, cancel, update the
  status, and delete;
- the per-product stock and units-sold counters that move with the orders;
- the order-creation validators;
- the coupon rules and the nightly coupon-expiry sweep;
- the cart, the wishlist and the address book;
- the last-admin guards of the account handlers;
- product reviews, with their running average rating;
- the Joi validators and sanitizers, the string helpers, and the HTTP method allow-list
  middleware.

How the model is built:

- Each collection is a value inside a class whose methods change it. Orders, coupons and
  reviews are sequences, so `findOne` takes the first match. Products, addresses and users
  are maps keyed by id.
- The signed-in user's cart and wishlist are the fields of `Users.Account`.
- Each handler is a method. It returns `Ok(value)` or `Err(code)` with the HTTP status the
  handler throws.
- Money is an exact `real`. Time is an integer number of milliseconds, `now`.
- The payment gateway's HMAC is a function parameter that is compared by equality.
- Whether an email was delivered is a boolean parameter, `emailSent`. For a message whose
  options carry its address under `recipient`, it is the mail server's answer
  (`Mail.Delivered`).

Invariants the classes keep:

- **`OrderStore.Valid` (the stock ledger).** Every product's stock equals a fixed base less
  the units held by the orders. Its units sold equal a base plus those same units. An order
  holds its units from payment until it is cancelled, or deleted before delivery. So confirm
  then cancel, or confirm then delete, nets to zero, and no order is restored twice.
- **`ReviewStore.Valid` (the rating summary).** For every product, `reviewCount` is the
  number of its reviews and `avgRating × reviewCount` is the sum of their ratings. The
  running average is therefore always the mean of the ratings, and it lies between 1 and 5.
- **`AddressBook.Valid`.** Each user has at most one default address, and a user with a
  live address has one. The handlers keep it as intended. As written, `setDefaultAddress`
  on the current default leaves its owner with none (see "## Findings"). `CouponStore.Valid` keeps ids and codes unique.
  `UserDirectory.Valid` keeps phone numbers unique.

Where `models/order.js` and the order controller disagree, the model follows the
controller. The schema file lacks `isPaid`, `deliveryMode`, `paymentId` and
`estimatedDeliveryDate`, and imports constants from a path that does not exist. The
controller writes and reads all of these fields.

## Model

| member | source | states |
|---|---|---|
| Constants.FindOption | src/controllers/orderControllers.js:50-52 | `DELIVERY_OPTIONS.find`: a found option is in the table with the requested mode; none found means no option has it |
| Constants.DeliveryOptionsCover | src/constants/common.js:114-131 | every delivery mode has an entry in the table, so the lookup never fails |
| Constants.PolicyOf | src/constants/common.js:114-131 | the option of a mode is in the table, charges at least the shipping minimum, and has 0 < min ≤ max days |
| Constants.ShippingDays | src/controllers/orderControllers.js:109-112 | the estimate is ⌈(min+max)/2⌉ days, stated as bounds: min ≤ d ≤ max and 2d−1 ≤ min+max ≤ 2d |
| Constants.ShippingDaysValues | src/constants/common.js:114-131 | the estimate is 7 days for standard and 4 for express |
| Constants.DeliveryTableFacts | src/constants/common.js:88-94 | exactly two delivery modes; standard charges 30, which equals the shipping minimum; express charges 100; min ≤ max for both |
| Constants.Without | src/controllers/orderControllers.js:312-314 | the filter keeps exactly the statuses other than the one removed |
| Constants.AllowedStatus | src/controllers/orderControllers.js:312-314 | the statuses without cancelled are created, processing, shipped, delivered, in the order of ORDER_STATUS |
| Constants.StatusIndex | src/controllers/orderControllers.js:330-331 | `indexOf` in that list: −1 exactly for cancelled, otherwise the position of the status |
| Constants.BoundsFacts | src/constants/common.js:68-102 | quantity 1–10, stock 1–10000, price 10–100000, flat discount 10–1000 in steps of 10, percentage 1–100, GST 0.18 |
| OrderModel.ValidItem | src/models/order.js:14-30 | an order line within the schema bounds is worth at least the minimum price |
| OrderModel.ValidOrder | src/models/order.js:33-99 | in an order the schema accepts, every line is worth at least the minimum price |
| OrderModel.QtyOfSnoc | src/controllers/orderControllers.js:125-134 | the units of a product across the lines grow by the last line's quantity when it is that product's line |
| OrderModel.QtyOfNonNegative | src/models/order.js:14-23 | with quantities of at least 1 the units of a product are never negative, and are 0 when no line names it |
| Pricing.OrderAmount | src/controllers/orderControllers.js:30 | the sum of price × quantity over the lines is never negative when no line has a negative price or quantity |
| Pricing.OrderAmountAtLeast | src/models/order.js:42-47 | the order amount of valid lines is at least the minimum price times the number of lines |
| Pricing.AtLeastOnce | src/models/order.js:14-30 | a non-negative price taken at least once is worth at least the price |
| Pricing.Discount | src/controllers/orderControllers.js:31-47 | no coupon gives 0; a flat coupon above the order amount is refused with 400 and otherwise takes off exactly its value, so equality is accepted; a percentage coupon takes off percent × amount / 100 |
| Pricing.DiscountBounded | src/controllers/orderControllers.js:31-47 | a discount within the coupon bounds is between 0 and the order amount |
| Pricing.PriceOrder | src/controllers/orderControllers.js:30-55 | the totals: the sum of price × quantity, the mode's shipping charge, tax of 0.18 × (goods + shipping), total = goods − discount + shipping + tax; the only error is the flat-coupon 400 |
| Pricing.TaxIgnoresDiscount | src/controllers/orderControllers.js:54-55 | the tax does not depend on the coupon, and each coupon lowers the total by exactly its discount |
| Pricing.PricedAmountsValid | src/models/order.js:42-71 | the priced amounts meet the schema minimums, and the total is at least shipping plus tax |
| Pricing.PricingExample | src/controllers/orderControllers.js:30-55 | 2 × 500 with standard delivery and no coupon gives 1000 / 0 / 30 / 185.4 / 1215.4 |
| Pricing.FlatDiscountFloor | src/controllers/orderControllers.js:36-44 | a flat coupon equal to the order amount is accepted and makes the goods free; a coupon worth one unit more is refused |
| Pricing.NewOrder | src/controllers/orderControllers.js:63-72 | the stored order has the gateway id, the caller and the lines; it is unpaid, created and not deleted |
| Pricing.CreatedOrderValid | src/models/order.js:8-99 | an order priced from valid lines with a coupon within bounds satisfies the whole order schema |
| Catalog.Step | src/controllers/orderControllers.js:128-131 | one `$inc` keeps the product ids, leaves every other product as it was, and keeps the line's product's stock plus units sold |
| Catalog.StepAt | src/controllers/orderControllers.js:125-134 | one more line shifts its product's stock by k × quantity and its units sold by −k × quantity |
| Catalog.Shifted | src/controllers/orderControllers.js:125-134 | the fan-out over the lines updates existing products only and adds none |
| Catalog.ShiftedAt | src/controllers/orderControllers.js:125-134 | after the fan-out, each product's stock has moved by k × its units in the order and its units sold by −k × those units, whatever the order of the lines |
| Catalog.ShiftConservation | src/controllers/orderControllers.js:227-236 | the cancel shift undoes the confirm shift exactly |
| Catalog.ShiftKeepsOtherFields | src/controllers/orderControllers.js:125-134 | the shift changes no product field besides stock and units sold |
| Catalog.StockTotals | src/controllers/orderControllers.js:128-131 | stock plus units sold, per product |
| Catalog.ShiftKeepsTotals | src/controllers/orderControllers.js:394-403 | every shift keeps stock plus units sold, per product |
| Catalog.ProductStore.ShiftStock | src/controllers/orderControllers.js:125-134 | the loop over the lines leaves the products equal to the shifted map |
| Catalog.ProductStore.SetRating | src/controllers/reviewControllers.js:73-78 | `product.save()` with a new rating summary changes that product's average and count and nothing else |
| Orders.HeldSnoc | src/controllers/orderControllers.js:63-72 | adding an order adds its held units to the ledger |
| Orders.WellFormedReplace | src/models/order.js:33-99 | replacing an order by one with the same id that meets the schema, and is paid only with a payment id, keeps the orders well formed |
| Orders.WellFormedAppend | src/controllers/orderControllers.js:63-72 | appending an unpaid, created order with a new id that meets the schema keeps the orders well formed |
| Orders.LedgerAfterAppend | src/controllers/orderControllers.js:63-72 | appending an order that holds no units keeps the ledger |
| Orders.HeldUpdate | src/controllers/orderControllers.js:104-118 | replacing one order changes the held units by the difference of the two orders' holdings |
| Orders.HeldNonNegative | src/models/order.js:14-23 | orders of valid lines never hold a negative number of units |
| Orders.LedgerAfterShift | src/controllers/orderControllers.js:104-134 | an order that starts holding (k = −1) or stops holding (k = 1) its units, with the stock shifted by k, keeps the ledger |
| Orders.LedgerAfterKeep | src/controllers/orderControllers.js:350-358 | a change that leaves an order's holding alone keeps the ledger without touching stock |
| Orders.LedgerBounds | src/controllers/orderControllers.js:125-134 | under the ledger, stock never exceeds its base and units sold never fall below their base |
| Orders.FindOrder | src/controllers/orderControllers.js:83 | `Order.findOne({ _id })`: the first order with the id, or none |
| Orders.ValidOrderOfSameAmounts | src/models/order.js:33-99 | the schema depends only on the lines and the amounts, so an order that changes only its status, payment or deletion fields still meets it |
| Orders.Confirmed | src/controllers/orderControllers.js:104-113 | the confirmed order is paid, carries the payment id, and is due today plus ⌈(min+max)/2⌉ days; nothing else changes |
| Orders.ConfirmedEstimate | src/controllers/orderControllers.js:102-112 | standard delivery is due in 7 days, express in 4 |
| Orders.StatusGuard | src/controllers/orderControllers.js:322-348 | an unpaid order gives 403, a cancelled order 403, the same status 409, in that order |
| Orders.StatusGuardOnlyNext | src/controllers/orderControllers.js:330-348 | the guards pass if and only if the target is the next of created, processing, shipped, delivered; a delivered order is final; a backward move is 403; a skip is 403 naming the status that must come next |
| Orders.Deleted | src/controllers/orderControllers.js:379-382 | the deleted order records the admin and the time; nothing else changes |
| Orders.RestoreMatchesRelease | src/controllers/orderControllers.js:388-403 | deletion restores stock exactly when the order stops holding it; a cancelled or delivered order is never restored, so nothing is restored twice |
| Orders.OrderStore.CreateOrder | src/controllers/orderControllers.js:26-75 | a 400 stores nothing; otherwise the priced, unpaid order is appended and the ledger holds |
| Orders.OrderStore.ConfirmOrder | src/controllers/orderControllers.js:78-149 | 404 for a missing or deleted order, 409 if it is paid, 400 for a wrong signature, all without change; otherwise it is paid, the cart is emptied, the units move from stock to sold, and a failed email is a 500 after the commit |
| Orders.OrderStore.ConfirmOrderAsWritten | src/controllers/orderControllers.js:136-148 | with the address under `recepient`, every confirmation that passes the guards answers 500, after the payment, the emptied cart and the stock moves are saved; no call succeeds |
| Orders.OrderStore.ConfirmFound | src/controllers/orderControllers.js:102-148 | the found order is paid with its delivery estimate, the cart is emptied, its units move from stock to sold, the ledger and the stock totals hold, and a failed email is a 500 after the commit |
| Orders.OrderStore.CancelOrder | src/controllers/orderControllers.js:199-257 | 404 unless the order is paid and live, 403 for another user's order, 409 if it is cancelled or delivered; otherwise it is cancelled, the units return to stock, and the total is refunded |
| Orders.OrderStore.CancelFound | src/controllers/orderControllers.js:221-256 | the found order is cancelled, its units return to stock, its total is refunded in paise, the ledger and the stock totals hold, and a failed email is a 500 after the commit |
| Orders.OrderStore.UpdateOrderStatus | src/controllers/orderControllers.js:308-363 | 404, then the status guards; on success only the status, the admin and the time change |
| Orders.OrderStore.DeleteOrder | src/controllers/orderControllers.js:366-425 | 404, and 403 for an unpaid order under 2 days old; otherwise it is soft-deleted, and only a paid order that is created, processing or shipped gets its units back and a refund |
| Orders.OrderStore.DeleteFound | src/controllers/orderControllers.js:379-424 | the found order is soft-deleted; only a paid order that is created, processing or shipped gets its units back and a refund, and the ledger and the stock totals hold either way |
| OrderValidators.CheckItem | src/middlewares/orderValidators.js:13-32 | 404 for a product missing or deleted, 409 for no stock, 409 for too little stock; accepted if and only if the product is live and the stock covers the quantity |
| OrderValidators.ValidateProducts | src/middlewares/orderValidators.js:8-38 | success if and only if every line passes, pairing each line with its product in input order; otherwise the error is that of the first failing line |
| OrderValidators.ValidatedLinesInStock | src/middlewares/orderValidators.js:11-37 | after validation every line's quantity is within its product's positive stock |
| OrderValidators.SplitLinesPassValidation | src/middlewares/orderValidators.js:11-34 | two lines of 3 for a product with stock 5 both pass, and confirming them leaves the stock at −1 |
| OrderValidators.ValidateCoupon | src/middlewares/orderValidators.js:40-58 | no code attaches nothing and raises nothing; otherwise 404 or 400 exactly as `checkCouponValidity`, and an attached coupon has the code and is redeemable |
| OrderValidators.ValidateAddress | src/middlewares/orderValidators.js:60-74 | 404 for a missing or deleted address, 403 for another user's; accepted if and only if it is live and the caller's |
| OrderValidators.ValidateAddressAgrees | src/controllers/addressControllers.js:14-28 | the address check accepts and refuses exactly as `getAddressById` does, with the same codes |
| Coupons.Redeemable | src/controllers/couponControllers.js:28-30 | a coupon is accepted exactly when it is not past its expiry instant and its status is active or expired (only inactive is refused) |
| Coupons.Listed | src/controllers/couponControllers.js:10-13 | a listed coupon is redeemable now and still one millisecond later |
| Coupons.FindByCode | src/controllers/couponControllers.js:22 | `Coupon.findOne({ code })`: the first coupon with the code, or none |
| Coupons.FindById | src/controllers/couponControllers.js:105 | `findById`: the first coupon with the id, or none |
| Coupons.FindByCodeExcept | src/controllers/couponControllers.js:111 | `findOne({ code, _id: { $ne } })`: a coupon with the code but another id, or none |
| Coupons.OwnCodeIsFree | src/controllers/couponControllers.js:111-118 | with unique codes, a coupon may keep its own code on update |
| Coupons.CheckCouponValidity | src/controllers/couponControllers.js:19-33 | 404 when no coupon has the code; valid if and only if the first coupon with the code is not past its expiry instant and not inactive; otherwise 400 |
| Coupons.CheckCouponValidityUnique | src/controllers/couponControllers.js:22-30 | with unique codes, the answer is valid exactly when that coupon is redeemable, and 400 exactly when it is not |
| Coupons.GetValidCoupons | src/controllers/couponControllers.js:9-16 | exactly the coupons strictly before expiry and active |
| Coupons.ListedIsRedeemable | src/controllers/couponControllers.js:9-33 | every listed coupon passes the validity check |
| Coupons.RedeemableNotListed | src/controllers/couponControllers.js:9-33 | the converse fails: a coupon at its expiry instant, or one marked expired, passes the check but is not listed |
| Coupons.CouponStore.CreateCoupon | src/controllers/couponControllers.js:70-85 | 409 for a code in use, with no change; otherwise the new coupon is appended, and ids and codes stay unique |
| Coupons.CouponStore.UpdateCoupon | src/controllers/couponControllers.js:101-136 | 404, then 409 for a code held by another coupon; otherwise code, discount and expiry are replaced, and the status becomes active only when the old expiry has passed and the new one is ahead |
| Coupons.CouponStore.DeleteCoupon | src/controllers/couponControllers.js:139-149 | 404 when absent; otherwise exactly that coupon is removed and the others keep their order |
| Coupons.CouponStore.ActivateCoupon | src/controllers/couponControllers.js:152-174 | 404, 403 past expiry, 409 if already active; otherwise it becomes active and records the admin |
| Coupons.CouponStore.DeactivateCoupon | src/controllers/couponControllers.js:177-199 | 404, 409 past expiry, 409 if already inactive; otherwise it becomes inactive and records the admin |
| CouponExpiry.Sweep | src/cron/jobs/checkCouponExpiry.js:9-17 | a coupon past expiry and not yet expired becomes expired; any other coupon is untouched |
| CouponExpiry.Swept | src/cron/jobs/checkCouponExpiry.js:9-17 | `updateMany` applies the sweep to every coupon, keeping the order and the number of coupons |
| CouponExpiry.CheckCouponExpiry | src/cron/jobs/checkCouponExpiry.js:9-17 | the loop over the collection leaves it equal to the swept collection and keeps ids and codes unique |
| CouponExpiry.SweptChangesOnlyStatus | src/cron/jobs/checkCouponExpiry.js:10-16 | only the status changes; coupons not stale are untouched and stale ones become expired |
| CouponExpiry.SweptLeavesNoStale | src/cron/jobs/checkCouponExpiry.js:10-16 | after a sweep no coupon past its expiry is active or inactive |
| CouponExpiry.SweptIdempotent | src/cron/jobs/checkCouponExpiry.js:10-16 | a second sweep at the same time changes nothing |
| CouponExpiry.SweptLater | src/cron/jobs/checkCouponExpiry.js:10-16 | an earlier sweep followed by a later one equals the later one alone |
| CouponExpiry.SweptPastExpiryUnusable | src/cron/jobs/checkCouponExpiry.js:10-16 | a swept coupon that was past expiry fails the validity check at any later time |
| Users.FindLine | src/controllers/cartControllers.js:36 | `cart.find` / `findIndex`: the first line for the product, or none |
| Users.RemoveLines | src/controllers/cartControllers.js:81 | the filtered cart is never longer than the cart |
| Users.RemoveLinesMembers | src/controllers/cartControllers.js:81 | the filter keeps exactly the lines of other products |
| Users.RemoveLinesConcat | src/controllers/cartControllers.js:81 | the filter distributes over concatenation, so the other lines keep their order |
| Users.RemoveLinesAbsent | src/controllers/cartControllers.js:145 | a cart without the product is left as it is |
| Users.RemoveLinesKeeps | src/controllers/cartControllers.js:145 | removing lines keeps one line per product |
| Users.Without | src/controllers/wishlistControllers.js:53 | the filter keeps exactly the other products |
| Users.WithoutConcat | src/controllers/wishlistControllers.js:53 | the wishlist filter keeps the other products in order |
| Users.WithoutAbsent | src/controllers/wishlistControllers.js:80 | a wishlist without the product is left as it is |
| Users.WithoutKeepsUnique | src/controllers/wishlistControllers.js:80 | removing keeps the wishlist free of duplicates |
| Users.NewUser | src/models/user.js:61-88 | a new user has the user role and is not deleted, with no deletion or role-change record |
| Users.FullnameAsWritten | src/models/user.js:135-137 | the virtual as written: a prefix of first name, space and the rendered last name, with only white space cut off and none left at the end |
| Users.FullnameShowsUndefined | src/models/user.js:135-137 | with no last name, "Jane" becomes "Jane undefined" |
| Users.FullName | src/models/user.js:135-137 | the intended full name, with a missing last name read as empty: a prefix of "first last" that does not end in white space |
| Users.FullNameParts | src/models/user.js:135-137 | a missing or empty last name gives just the first name; a last name is joined by one space |
| Accounts.LiveAdmins | src/controllers/userControllers.js:47-51 | exactly the ids of admins that are not deleted |
| Accounts.SoftDeleted | src/controllers/userControllers.js:61-65 | the record is deleted by the actor at the time; no other field changes |
| Accounts.WithRole | src/controllers/userControllers.js:228-232 | the record has the role, set by the actor at the time; no other field changes |
| Accounts.OtherAdminSurvives | src/controllers/userControllers.js:46-59 | when another live admin exists, changing the caller's record leaves at least one admin |
| Accounts.NonAdminChangeKeepsAdmins | src/controllers/userControllers.js:46-65 | a change to a record that is not a live admin, and does not make it one, leaves the admins as they were |
| Accounts.UpdateUserRoleCanRemoveLastAdmin | src/controllers/userControllers.js:166-181 | `updateUserRole` has no last-admin guard: demoting the only admin leaves no admin |
| Accounts.ApplyProfile | src/controllers/userControllers.js:19-37 | names and phone are replaced, the last name only if one is sent, the password only if it is not empty; email, role and deletion stay |
| Accounts.GetUserById | src/controllers/userControllers.js:153-163 | found if and only if the user exists and is not deleted; otherwise 404 |
| Accounts.UserDirectory.UpdateProfile | src/controllers/userControllers.js:18-40 | 409 when another account has the phone, with no change; otherwise the profile update is applied, phones stay unique, and the email is never changed |
| Accounts.UserDirectory.DeleteAccount | src/controllers/userControllers.js:43-70 | an admin with no other live admin gets 409; anyone else is soft-deleted; at least one admin always remains |
| Accounts.UserDirectory.AdminSelfDemote | src/controllers/userControllers.js:212-235 | 409 without another live admin; otherwise the caller becomes a user; at least one admin always remains |
| Accounts.UserDirectory.AdminSelfDelete | src/controllers/userControllers.js:238-263 | the same guard; otherwise the caller is soft-deleted; at least one admin always remains |
| Accounts.UserDirectory.UpdateUserRole | src/controllers/userControllers.js:166-181 | 404 for a missing or deleted user; otherwise the role is set with the admin and the time |
| Accounts.UserDirectory.DeleteUser | src/controllers/userControllers.js:184-198 | 404 for a missing or deleted user; otherwise it is soft-deleted by the admin |
| Cart.AddItemToCart | src/controllers/cartControllers.js:22-68 | 404, 409 for no stock, 403 for a line already at 10 or at the stock; otherwise the line goes up by one in place, or, when the product has no line, a new line of 1 is appended and the answer is 1; lines stay unique and within bounds |
| Cart.RemoveItemFromCart | src/controllers/cartControllers.js:71-85 | 404 when the product has no line; otherwise its lines go and the others keep their order |
| Cart.UpdateItemQuantity | src/controllers/cartControllers.js:88-126 | 404 for a product or line missing, 403 above 10, 409 above the stock; otherwise only that line's quantity is set |
| Cart.MoveItemToWishlist | src/controllers/cartControllers.js:129-155 | 404 for a product or line missing; otherwise the line goes and the product is added to the wishlist only if it is not already there |
| Cart.ClearCart | src/controllers/cartControllers.js:158-165 | the cart is empty and the wishlist is unchanged |
| Wishlist.AddItemToWishlist | src/controllers/wishlistControllers.js:20-40 | 404, 409 if the product is present; otherwise it is appended, and the wishlist stays free of duplicates |
| Wishlist.RemoveItemFromWishlist | src/controllers/wishlistControllers.js:43-57 | 404 if the product is absent; otherwise it is removed and the rest keep their order |
| Wishlist.AddThenRemove | src/controllers/wishlistControllers.js:30-53 | adding a product that was absent and then removing it restores the wishlist |
| Wishlist.MoveItemToCart | src/controllers/wishlistControllers.js:60-90 | 404, 404, 409 in that order; otherwise it leaves the wishlist, and a cart line of 1 is added only if none exists |
| Wishlist.ClearWishlist | src/controllers/wishlistControllers.js:93-100 | the wishlist is empty and the cart is unchanged |
| Addresses.ClearDefault | src/controllers/addressControllers.js:40-44 | clearing a user's default unsets the flag on that user's addresses only |
| Addresses.ClearWithoutDefault | src/controllers/addressControllers.js:133-137 | with no default to clear, clearing changes nothing |
| Addresses.PutDefaultKeepsValid | src/controllers/addressControllers.js:76-87 | storing a live default after clearing the old one keeps at most one default per user |
| Addresses.PutPlainKeepsValid | src/controllers/addressControllers.js:84-87 | storing a live non-default for a user who already has a default keeps the invariant |
| Addresses.ClearDefaultTouchesOne | src/controllers/addressControllers.js:40-44 | under the invariant the clearing touches at most one record, as `findOneAndUpdate` does |
| Addresses.GetAddressById | src/controllers/addressControllers.js:14-28 | 404 for a missing or deleted address, 403 for another user's; found if and only if it is live and the caller's |
| Addresses.GetAddresses | src/controllers/addressControllers.js:7-11 | exactly the caller's live addresses |
| Addresses.AddressBook.AddNewAddress | src/controllers/addressControllers.js:31-50 | a user's first live address becomes the default; a new default first clears the old one; a new address is added in every case |
| Addresses.AddressBook.UpdateAddress | src/controllers/addressControllers.js:53-90 | 404, 403, 409 when the default would become non-default, and success exactly when none of these applies; the fields sent overwrite the stored ones and the others are kept, and a new default clears the old one |
| Addresses.AddressBook.DeleteAddress | src/controllers/addressControllers.js:93-117 | 404, 403, 409 for the default; otherwise only the deletion flag is set |
| Addresses.AddressBook.SetDefaultAddress | src/controllers/addressControllers.js:120-143 | 404, 403; otherwise the old default is cleared and this address is the user's only default |
| Addresses.SetDefaultAsWritten | src/controllers/addressControllers.js:123-140 | the store as written: the caller's default is cleared, and the address ends as the default exactly when it was not already the default |
| Addresses.SetDefaultAsWrittenLosesDefault | src/controllers/addressControllers.js:133-140 | setting the current default again leaves its owner with a live address and no default, so the invariant fails |
| Addresses.AddressBook.SetDefaultAddressAsWritten | src/controllers/addressControllers.js:120-143 | 404, 403, success exactly otherwise, answering the loaded address with `isDefault` set; the store is the as-written one, and for the current default the user has no default left |
| Reviews.RatingsSnoc | src/controllers/reviewControllers.js:71 | one more review adds its rating to its product's sum and one to its count |
| Reviews.RatingsUpdate | src/controllers/reviewControllers.js:115-118 | replacing a review with one for the same product changes the sum by the rating difference and keeps the count |
| Reviews.RatingCountPositive | src/controllers/reviewControllers.js:120-124 | a reviewed product has a positive count, so the update's division is by a positive number |
| Reviews.RatingSumBounds | src/controllers/reviewControllers.js:73-76 | with ratings from 1 to 5, the sum lies between once and five times the count |
| Reviews.ProductMean | src/controllers/reviewControllers.js:73-76 | a summary that agrees with a positive count of ratings from 1 to 5 has the mean as its average, and the average is within [1, 5] |
| Reviews.AverageIsMean | src/controllers/reviewControllers.js:73-76 | under the store invariant a reviewed product's average is the mean of its ratings, and lies within [1, 5] |
| Reviews.AgreesOnSummary | src/controllers/reviewControllers.js:73-78 | agreement depends on the average and the count alone |
| Reviews.WithAddedRating | src/controllers/reviewControllers.js:73-76 | the count goes up by one and the new average × new count = the old average × old count + the rating; nothing else changes |
| Reviews.WithChangedRating | src/controllers/reviewControllers.js:122-124 | the count is unchanged and the new average × count = the old average × count − the old rating + the new one |
| Reviews.AddKeepsAgreement | src/controllers/reviewControllers.js:71-78 | adding a review and folding its rating in keeps every product's summary equal to its reviews |
| Reviews.UpdateKeepsAgreement | src/controllers/reviewControllers.js:115-126 | changing a rating and swapping it in the average keeps every summary equal to its reviews |
| Reviews.ShiftKeepsAgreement | src/controllers/orderControllers.js:125-134 | the stock moves of the order handlers keep the rating summaries |
| Reviews.RatingChangeKeepsLedger | src/controllers/reviewControllers.js:73-78 | changing a product's rating keeps the order stock ledger |
| Reviews.FirstPurchase | src/controllers/reviewControllers.js:52-58 | the first paid order of the user with a line for the product, or none |
| Reviews.FindReview | src/controllers/reviewControllers.js:87 | `findById`: a review with the id, or none |
| Reviews.GetProductReviewById | src/controllers/reviewControllers.js:84-98 | 404 for a missing review, 403 for another user's; found if and only if it exists and is the caller's |
| Reviews.ReviewStore.AddProductReview | src/controllers/reviewControllers.js:36-81 | 404 for an unknown product, 409 if the user has reviewed it, 403 without a paid order with the product or when that order is not delivered, and success exactly when none of these applies; the review is then appended and the product's summary gains the rating, keeping the average the mean |
| Reviews.ReviewStore.UpdateProductReview | src/controllers/reviewControllers.js:101-129 | 404 and 403 as for reading, with no change; otherwise the review is replaced and the average swaps the old rating for the new one |
| JoiValidators.ValidateOption | src/utils/joiValidators.js:11-25 | string.base for a non-string, string.empty for '', any.invalid for a value outside the options; accepted if and only if it is one of the options, returned unchanged |
| JoiValidators.Dedup | src/utils/joiValidators.js:33 | `[...new Set(xs)]`: the same values, each once |
| JoiValidators.DedupOrder | src/utils/joiValidators.js:33 | values keep the order of their first occurrences |
| JoiValidators.Pieces | src/utils/joiValidators.js:32 | one piece per comma-separated part, each trimmed and lowercased |
| JoiValidators.ValidateCommaSeparatedValues | src/utils/joiValidators.js:27-44 | string.base for a non-string; the loop returns the deduplicated pieces when all are options, otherwise any.invalid |
| JoiValidators.EveryValueAllowed | src/utils/joiValidators.js:37-41 | true if and only if every deduplicated value is among the options; the loop stops at the first that is not |
| JoiValidators.AcceptedList | src/utils/joiValidators.js:35-43 | an accepted list holds only options, each once, covers every piece, and has between 1 and commas + 1 elements |
| JoiSanitizers.NonEmptyFields | src/utils/joiSanitizers.js:3-11 | exactly the keys whose value is not undefined, null or '', with their values unchanged |
| JoiSanitizers.NonEmptyFieldsIdempotent | src/utils/joiSanitizers.js:3-11 | no empty value survives, and stripping again changes nothing |
| JoiSanitizers.StripEmptyFields | src/utils/joiSanitizers.js:3-11 | the for-in loop deleting empty keys leaves exactly the non-empty fields |
| JoiSanitizers.WithoutUnusedDiscount | src/utils/joiSanitizers.js:41-51 | a flat type loses `percentageDiscount`, any other type loses `flatDiscount`; all other fields stay |
| JoiSanitizers.StripDiscountValue | src/utils/joiSanitizers.js:41-51 | the in-place deletion leaves the object without the unused discount field |
| JoiSanitizers.WithoutUnusedDiscountFacts | src/utils/joiSanitizers.js:41-51 | at most one discount field remains, and stripping again changes nothing |
| JoiSanitizers.CollapseWhitespace | src/utils/joiSanitizers.js:30 | `replace(/\s+/g, ' ')`: empty only for empty input, the first character kept or turned into a space |
| JoiSanitizers.CollapseShape | src/utils/joiSanitizers.js:30 | the collapse has no two adjacent white space characters, and its only white space is the plain space |
| JoiSanitizers.CollapseFixed | src/utils/joiSanitizers.js:30 | an already collapsed string is its own collapse |
| JoiSanitizers.CollapseIdempotent | src/utils/joiSanitizers.js:30 | collapsing twice equals collapsing once |
| JoiSanitizers.CollapseKeepsContent | src/utils/joiSanitizers.js:30 | every character that is not white space is kept, in order |
| JoiSanitizers.RemoveExtraInnerSpaces | src/utils/joiSanitizers.js:21-31 | string.base for a non-string, string.empty for ''; otherwise the collapsed string |
| JoiSanitizers.TrimmedPieces | src/utils/joiSanitizers.js:38 | one trimmed piece per comma-separated part |
| JoiSanitizers.SanitizeCommaSeparatedValues | src/utils/joiSanitizers.js:33-39 | string.base for a non-string; otherwise the trimmed pieces |
| JoiSanitizers.SanitizedPieces | src/utils/joiSanitizers.js:33-39 | commas + 1 pieces, none holding a comma or outer white space, and lowercasing them gives the validator's pieces |
| Helpers.FormatOptions | src/utils/helperFunctions.js:70-87 | '' for no options, the option itself for one, "a and b" for two |
| Helpers.FormatOptionsJoins | src/utils/helperFunctions.js:85-86 | for two or more, all but the last joined by ", ", then " and " and the last |
| Helpers.FormatOptionsSnoc | src/utils/helperFunctions.js:85-86 | one more option puts the former last option behind a comma |
| Helpers.FormatOptionsExample | src/utils/helperFunctions.js:70-87 | the role and coupon-status lists read "user and admin" and "active, inactive and expired" |
| Helpers.LowercaseFirstLetter | src/utils/helperFunctions.js:30-36 | '' is returned as is; otherwise only the first character is lowercased and the length is kept |
| Helpers.CapitalizeFirstLetter | src/utils/helperFunctions.js:38-44 | '' is returned as is; otherwise only the first character is uppercased and the length is kept |
| Helpers.CaseHelpersRoundTrip | src/utils/helperFunctions.js:30-44 | each helper is idempotent, and each one applied after the other gives the same result as on its own |
| Helpers.IsBoolean | src/utils/helperFunctions.js:102-105 | a value it accepts is four or five characters long once trimmed |
| Helpers.BooleanWordEdges | src/utils/helperFunctions.js:102-105 | a word that lowercases to true or false starts and ends with a letter |
| Helpers.IsBooleanOfPadded | src/utils/helperFunctions.js:102-105 | a boolean word with white space around it is accepted |
| Helpers.IsBooleanPadded | src/utils/helperFunctions.js:102-105 | an accepted string is a boolean word with white space around it |
| Helpers.PaddedIsBoolean | src/utils/helperFunctions.js:102-105 | a padded boolean word is accepted |
| Helpers.IsBooleanCharacterised | src/utils/helperFunctions.js:102-105 | `isBoolean` holds if and only if the string is "true" or "false", in any case, with white space around it |
| HttpMethods.Templated | src/middlewares/isHttpMethodAllowed.js:9-13 | a path in which no parameter value occurs is left as it is |
| HttpMethods.TemplatedSnoc | src/middlewares/isHttpMethodAllowed.js:9-13 | the parameters apply in order: the last one replaces its value's first occurrence in what the others left |
| HttpMethods.TemplatePath | src/middlewares/isHttpMethodAllowed.js:5-13 | the loop yields the templated path; with no parameters the path is unchanged |
| HttpMethods.IsHttpMethodAllowed | src/middlewares/isHttpMethodAllowed.js:5-30 | 500 when the templated path has no methods, 405 with the allowed methods joined by ", " when the method is not listed, otherwise next |
| HttpMethods.UnionHasMethods | src/utils/expectedHttpActions.js:1-76 | merging two route groups that each list methods gives a table that lists methods for every route |
| HttpMethods.AuthenticationRoutesHaveMethods | src/utils/expectedHttpActions.js:2-7 | every authentication route lists a method |
| HttpMethods.UserRoutesHaveMethods | src/utils/expectedHttpActions.js:9-16 | every user route lists a method |
| HttpMethods.AddressRoutesHaveMethods | src/utils/expectedHttpActions.js:18-21 | every address route lists a method |
| HttpMethods.CartRoutesHaveMethods | src/utils/expectedHttpActions.js:23-29 | every cart route lists a method |
| HttpMethods.WishlistRoutesHaveMethods | src/utils/expectedHttpActions.js:31-36 | every wishlist route lists a method |
| HttpMethods.ProductRoutesHaveMethods | src/utils/expectedHttpActions.js:38-43 | every product route lists a method |
| HttpMethods.CategoryRoutesHaveMethods | src/utils/expectedHttpActions.js:45-49 | every category route lists a method |
| HttpMethods.BrandRoutesHaveMethods | src/utils/expectedHttpActions.js:51-55 | every brand route lists a method |
| HttpMethods.CouponRoutesHaveMethods | src/utils/expectedHttpActions.js:57-63 | every coupon route lists a method |
| HttpMethods.OrderRoutesHaveMethods | src/utils/expectedHttpActions.js:65-71 | every order route lists a method |
| HttpMethods.ReviewRoutesHaveMethods | src/utils/expectedHttpActions.js:73-75 | every review route lists a method |
| HttpMethods.TableHasMethods | src/middlewares/isHttpMethodAllowed.js:15-22 | every route of the table lists a method, so a known route never gets the 500 |
| HttpMethods.ConfirmRouteMethods | src/utils/expectedHttpActions.js:68 | the confirm route takes only PUT |
| Mail.Delivered | src/services/sendEmail.js:5-18 | a message goes out only when its options carry a non-empty `recipient`, and then exactly when the mail server accepts it |
| Mail.ConfirmOptionsAsWritten | src/controllers/orderControllers.js:137-141 | the confirmation options hold the address under `recepient` and have no `recipient` |
| Mail.ConfirmOptions | src/controllers/orderControllers.js:137-141 | the intended confirmation options hold the address under `recipient` |
| Mail.NoticeOptions | src/controllers/orderControllers.js:245-249 | the cancel and delete notices hold the address under `recipient` |
| Mail.ConfirmAsWrittenNeverDelivered | src/services/sendEmail.js:7-9 | the as-written confirmation email is never delivered, whatever the address or the server's answer |
| Mail.ConfirmDeliveredAsNotices | src/controllers/orderControllers.js:244-251 | with the key spelled `recipient`, the confirmation goes out exactly when the address is not empty and the server accepts it, like the cancel notice |

## Left out

- Razorpay order creation and refunds are foreign calls. The gateway's order id is a
  parameter of `CreateOrder`. A refund is recorded in `OrderStore.refunds`. Its amount is
  the total × 100, not rounded. Gateway failures are not modelled:
  - if `razorpay.orders.create` throws, `createOrder` stores no order, but `CreateOrder`
    always stores one once the pricing succeeds;
  - `razorpay.payments.refund` is awaited after the commit in `cancelOrder` and
    `deleteOrder`, so if it throws, the order stays cancelled or deleted with its stock
    restored, no refund is made, and the answer is an error. `CancelFound` and
    `DeleteFound` always append the refund.
- HMAC-SHA256 is cryptography. `ConfirmOrder` takes it as a function parameter and compares
  by equality.
- Email is I/O. Whether the email was delivered is a boolean parameter, and a failure is a
  500 returned after the state change. The templates are not modelled. The Gmail transport
  refusing a message with no recipient is nodemailer's behaviour, which is not part of this
  model; `Mail.Delivered` states it.
- Orders.OrderStore.ConfirmOrder: models the confirmation email with its recipient keyed
  correctly. As written, `confirmOrder` stores the address under `recepient`, which
  `sendEmail` does not read, so every confirmation answers 500 after the commit. That
  behaviour is `ConfirmOrderAsWritten` (see "## Findings").
- Floating-point rounding is not modelled: `roundOneDecimal`, `roundTwoDecimals`, the model
  setters, and the ×100 conversion to paise. Amounts are exact reals. JavaScript numbers are
  reals or unbounded integers.
- The clock is a parameter. `now` and `todayStart` stand for `new Date()` and
  `getCurrentDate()`, with a day of 86400000 ms.
- `Promise.all` over the lines is a sequential loop in line order. `ValidateProducts`
  therefore reports the first failing line in input order, where the source reports
  whichever query fails first.
- Queries, pagination, sorting and the count headers are plumbing. This covers `getOrders`,
  `getOrderById`, `adminGetOrders`, `adminGetOrderById`, `adminGetCoupons`,
  `getCouponById`, `getProductReviews`, `getUsers`, `getOtherAdmins`, `getProfile`,
  `getCart` and `getWishlist`.
- Catalog CRUD, avatars, authentication, password hashing and tokens are uploads and
  cryptography. The profile update stores the password it is given, in place of its hash.
- Joi schema files are declarative configuration of a library. Their bounds appear as
  preconditions:
  - valid order lines and a coupon discount within bounds for `CreateOrder`;
  - a coupon expiry in the future for `CreateCoupon` and `UpdateCoupon`;
  - a rating from 1 to 5;
  - a quantity of at least 1 for `UpdateItemQuantity`.
- Cart.UpdateItemQuantity: does not model quantities below 1, because the cart schema
  refuses them before the handler runs.
- The unit price of an order line is an explicit input. `createOrder` reads `item.price`
  from a body whose schema has no such field.
- Addresses.AddressBook.SetDefaultAddress: models the intended write, where the address
  stays the default. As written, `save()` writes only changed paths, so for the current
  default the clearing stands. That behaviour is `SetDefaultAddressAsWritten` (see
  "## Findings"). Mongoose's change tracking is not part of this model.
- The order's `coupon` code and `paymentMethod` are not fields of `Order`. `createOrder`
  stores them from the request body, but no handler reads them back, so no modelled
  behaviour depends on them.
- models/coupon.js and models/product.js are not part of this model. The default coupon
  status is taken to be active, and a product has only the fields the handlers use.
- Reviews.ReviewStore.constructor: requires every product to start with a review count of
  0, since the invariant ties each count to the stored reviews.
- Conditions the source allows are kept as written, not changed:
  - `confirmOrder` does not check that the caller owns the order, and it empties the
    caller's cart;
  - validation checks each line on its own, so split lines can take stock below zero
    (`SplitLinesPassValidation`);
  - `updateUserRole` and `deleteUser` have no last-admin guard;
  - `addProductReview` finds the product without a deletion filter, and finds the order
    without one too.
- Case mapping covers ASCII only. `toLowerCase` and `toUpperCase` change only the ASCII
  letters and keep every other character. The white-space class of `\s` and `trim` is the
  full WhiteSpace and LineTerminator set of ECMA-262.

## Findings

| source | as written | input that shows it | evidently intended | confidence | as-written member | corrected member |
|---|---|---|---|---|---|---|
| src/models/user.js:135-137 | the virtual interpolates `this.lastname` into a template literal and trims the end | a user who signed up without a last name, firstname "Jane": the full name is "Jane undefined" | a missing last name reads as empty, giving "Jane" | not executed | Users.FullnameAsWritten, Users.FullnameShowsUndefined | Users.FullName, Users.FullNameParts |
| src/controllers/orderControllers.js:138 | the confirmation email's options name the address `recepient`, while `sendEmail` reads `options.recipient` (src/services/sendEmail.js:9); cancel and delete spell it `recipient` (lines 246 and 413) | any order that passes the guards, with a correct signature: the message has no recipient, the transport refuses it, and the answer is 500 after `isPaid`, the payment id and the estimate are saved, the cart is emptied and the stock has moved | the key is `recipient`, so the customer is emailed and the answer is 200 with the confirmed order | not executed; relies on nodemailer refusing a message without recipients | Mail.ConfirmOptionsAsWritten, Mail.ConfirmAsWrittenNeverDelivered, Orders.OrderStore.ConfirmOrderAsWritten | Mail.ConfirmOptions, Mail.ConfirmDeliveredAsNotices, Orders.OrderStore.ConfirmOrder |
| src/controllers/addressControllers.js:139-140 | the handler clears the caller's default in the database, then sets `isDefault = true` on the copy it loaded before and saves it; for an address loaded as the default the value does not change, so `save()` writes nothing | a user's current default address set as the default again: the user is left with no default, while the answer shows `isDefault: true`; a later `updateAddress` of that user then reads `_id` of a missing default and answers 500 | the address stays the user's only default | not executed; relies on Mongoose saving only modified paths | Addresses.SetDefaultAsWritten, Addresses.SetDefaultAsWrittenLosesDefault, Addresses.AddressBook.SetDefaultAddressAsWritten | Addresses.AddressBook.SetDefaultAddress |
