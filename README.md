# OneStop basket pricing and loyalty engine, in Dafny

OneStop prices a forecourt shop basket. A request names a customer, an
optional loyalty card, a transaction date and a list of (product id,
quantity) items. The handler looks the products up, fetches the discount
promotions and the points promotion active on the date, and asks the basket
calculator for four figures:

- the total amount;
- the discount applied;
- the grand total;
- the loyalty points earned.

This project models that engine and proves what it promises.

- **Domain entities.** `Product`, `DiscountPromotion`, `PointsPromotion`,
  `BasketLineItem` and `BasketCalculationResult` are immutable values.
  - Each has a checking constructor that returns a `Result`. The error
    texts and parameter names are those of the C# `ArgumentException`s.
  - Each has the small operations of its class: line totals, inclusive date
    windows, case-insensitive eligibility, discounts rounded half to even,
    floored points, and value equality.
- **The basket calculator.** `BasketCalculatorService.Calculate` and
  `ValidateNoOverlappingDiscounts` are methods with loops.
  - The methods are proved against `CalculateSpec`, a function stated with
    three sums over the lines: the raw total, the per-line rounded
    discounts, and the post-discount amount that qualifies for points.
  - The lemmas about `CalculateSpec` cover the guards, the overlap error
    (which names the product and every matching promotion), the rounded
    sums, insensitivity to line order, and success on whole-cent prices.
- **The request handler.** `CalculateBasketHandler.Handle` receives the
  repository answers as inputs.
  - The missing ids are reported in one batch, deduplicated and in basket
    order.
  - The line items are built in basket order, and the loyalty flag is
    derived from the card.
  - The request fields are echoed in the result.
  - The module `SeededHandler` wires `Handle` to the in-memory repositories.
- **The in-memory repositories.** These are the seeded catalogue and the
  seeded 2020 promotions, together with their queries.
  - The product dictionary compares ids with `OrdinalIgnoreCase`.
  - The discount query filters by date; the points query takes the first
    match.
  - Facts about the seed are proved: the eligible sets are disjoint and the
    points windows do not overlap.
- **Validation and error mapping.**
  - The `CalculateBasketValidator` rules become a list of failures.
  - `ValidationException` groups those failures by property.
  - `GlobalExceptionHandler` maps each error kind to a status code and
    response, and rewrites JSON reader messages.

**Conventions used throughout:**

- Money is `real`, because C# `decimal` is exact for these values.
  - `Math.Round(x, 2)` is `Money.Round2`: the nearest cent, with ties to
    the even cent.
  - `Math.Floor` is `real.Floor`.
- A `DateTime` is (year, month, day, time of day in seconds), compared
  lexicographically. `.Date` zeroes the time of day.
- `StringComparer.OrdinalIgnoreCase` is an explicit ASCII upper-case fold.
  Promotion eligibility sets and product dictionaries are keyed by folded
  ids.
- Every exception is a variant of `Errors.Error`. `Message()` renders the
  text the C# exception carries.

Two invariants hold only when every unit price is a whole number of cents:

- the raw discount is at most the raw total;
- the grand total equals the rounded total minus the rounded discount.

With a price of 0.015 and a 100% promotion, the discount rounds up to 0.02
and the result constructor rejects the basket. With raw figures 0.015 and
0.01, the grand total is 0.00 while the fields read 0.02 and 0.01. The model
keeps the code as written: it proves both invariants under the whole-cent
premise and proves the two counterexamples as lemmas
(`BasketCalculator.CentlessBasketCanBeRejected`,
`CalculationResults.GrandTotalCanDifferFromDifference`).

## Model

| member | source | states |
|---|---|---|
| Money.RoundHalfEven | src/OneStop.Domain/Models/BasketCalculationResult.cs:42-44 | the integer nearest the input, and the even one of the two on an exact tie (banker's rounding) |
| Money.Round2 | src/OneStop.Domain/Models/BasketCalculationResult.cs:42-44 | `Math.Round(x, 2)`: a whole number of cents, at most half a cent from x, with 100·r the half-to-even rounding of 100·x |
| Calendar.DateTime.Date | src/OneStop.Domain/Entities/DiscountPromotion.cs:52 | `.Date` is midnight of the same calendar day |
| Text.IndexOfIgnoreCase | src/OneStop.Presentation/Exceptions/GlobalExceptionHandler.cs:122 | -1 when the text matches nowhere up to case, otherwise the first index where it matches |
| Text.TrimEnd | src/OneStop.Presentation/Exceptions/GlobalExceptionHandler.cs:125 | the white-space half of `Trim()`: the longest prefix that does not end in white space; everything removed is white space |
| Text.TrimEndChar | src/OneStop.Presentation/Exceptions/GlobalExceptionHandler.cs:125 | `TrimEnd('.')`: the longest prefix that does not end in the character; everything removed is that character |
| Errors.MessageNamesItsData | src/OneStop.Application/Exceptions/NotFoundException.cs:11-12 | `Exception.Message`: a not-found message starts with the entity name and contains the key; an argument message starts with its text and contains the parameter name (and is the text alone without one); validation errors carry the fixed message; the rest pass their text through. The overlap message is `BasketCalculator.OverlapMessageNamesAll` |
| Sequences.Distinct | src/OneStop.Application/Features/Basket/CalculateBasket.cs:68 | `Distinct()`: the same elements, each once |
| Sequences.DistinctKeepsFirstAppearanceOrder | src/OneStop.Application/Features/Basket/CalculateBasket.cs:75 | the distinct elements come in the order of their first appearance |
| Products.NewProduct | src/OneStop.Domain/Entities/Product.cs:15-30 | succeeds exactly with a non-blank id and name and a non-negative price; otherwise the first failing check's error and parameter |
| Products.Product.CalculateLineTotal | src/OneStop.Domain/Entities/Product.cs:37-43 | fails exactly on a negative quantity; otherwise the unrounded unitPrice × quantity |
| Products.Product.BelongsToCategory | src/OneStop.Domain/Entities/Product.cs:50 | true exactly when the product's category is the one asked |
| Products.LineTotalMonotone | src/OneStop.Domain/Entities/Product.cs:23-42 | for a valid product the line total is non-negative, zero at quantity 0, and non-decreasing in quantity |
| Products.LineTotalInCents | src/OneStop.Domain/Entities/Product.cs:42 | a whole-cent price gives a whole-cent line total at every quantity |
| DiscountPromotions.NewDiscountPromotion | src/OneStop.Domain/Entities/DiscountPromotion.cs:17-43 | the four checks in order with their messages; on success dates stripped to the day, and eligibility is case-insensitive membership of the given ids (none when null) |
| DiscountPromotions.EligibleKeys | src/OneStop.Domain/Entities/DiscountPromotion.cs:42 | the eligible set holds one folded key per id up to case, so duplicates and case variants collapse |
| DiscountPromotions.AppliesToProductIgnoresCase | src/OneStop.Domain/Entities/DiscountPromotion.cs:42-64 | `AppliesToProduct` on a constructed promotion: true exactly when one of the given ids equals the product id ignoring case, and never when the ids were null |
| DiscountPromotions.DiscountPromotion.DiscountOn | src/OneStop.Domain/Entities/DiscountPromotion.cs:76 | the discount is whole cents and is lineTotal × percentage / 100 rounded half to even |
| DiscountPromotions.DiscountPromotion.CalculateDiscount | src/OneStop.Domain/Entities/DiscountPromotion.cs:71-77 | fails exactly on a negative line total, otherwise the rounded discount |
| DiscountPromotions.IsActiveOnInclusive | src/OneStop.Domain/Entities/DiscountPromotion.cs:50-54 | `IsActiveOn`: active on the first and last day at any time of day and on the days between, inactive before the start day and after the end day |
| DiscountPromotions.DiscountWithinLineTotal | src/OneStop.Domain/Entities/DiscountPromotion.cs:71-77 | for a valid promotion and a whole-cent line total, 0 ≤ discount ≤ line total |
| DiscountPromotions.DiscountCanExceedLineTotal | src/OneStop.Domain/Entities/DiscountPromotion.cs:76 | 100% of 0.015 rounds to 0.02, above the line total |
| PointsPromotions.NewPointsPromotion | src/OneStop.Domain/Entities/PointsPromotion.cs:22-48 | the four checks in order with their messages; on success the fields with the dates stripped to the day |
| PointsPromotions.PointsPromotion.AppliesToCategory | src/OneStop.Domain/Entities/PointsPromotion.cs:66-70 | every category when there is no filter, otherwise only the filtered one |
| PointsPromotions.PointsPromotion.PointsFor | src/OneStop.Domain/Entities/PointsPromotion.cs:82 | the largest integer not above amount × pointsPerDollar |
| PointsPromotions.PointsPromotion.CalculatePoints | src/OneStop.Domain/Entities/PointsPromotion.cs:77-83 | fails exactly on a negative amount, otherwise the floored points |
| PointsPromotions.IsActiveOnInclusive | src/OneStop.Domain/Entities/PointsPromotion.cs:55-59 | `IsActiveOn`: active on the first and last day at any time of day and on the days between, inactive before the start day and after the end day |
| PointsPromotions.PointsMonotone | src/OneStop.Domain/Entities/PointsPromotion.cs:77-83 | for a valid promotion, points are non-negative and non-decreasing in the amount, and a zero rate gives zero |
| PointsPromotions.PointsAreFloored | src/OneStop.Domain/Entities/PointsPromotion.cs:82 | 3.33 at 2 points per dollar earns 6 points, never rounded up |
| BasketLineItems.NewBasketLineItem | src/OneStop.Domain/ValueObjects/BasketLineItem.cs:11-21 | succeeds exactly with a non-blank id and a positive quantity; otherwise the first check's error |
| BasketLineItems.BasketLineItem.Equals | src/OneStop.Domain/ValueObjects/BasketLineItem.cs:23-30 | equal exactly to a present item with the same id (case-sensitive) and quantity |
| BasketLineItems.EqualsOperator | src/OneStop.Domain/ValueObjects/BasketLineItem.cs:34 | `==` holds exactly when both sides are null or equal items |
| BasketLineItems.NotEqualsOperator | src/OneStop.Domain/ValueObjects/BasketLineItem.cs:36 | `!=` is the negation of `==` |
| BasketLineItems.EqualityLaws | src/OneStop.Domain/ValueObjects/BasketLineItem.cs:23-36 | reflexive, never equal to null, symmetric, `!=` negates `==`, and equal items hash alike |
| BasketLineItems.EqualsIsCaseSensitive | src/OneStop.Domain/ValueObjects/BasketLineItem.cs:27 | "PRD01" and "prd01" items are not equal |
| CalculationResults.NewResult | src/OneStop.Domain/Models/BasketCalculationResult.cs:28-46 | the four checks on the raw inputs in order; on success the money fields are rounded, the grand total from the raw difference, the points unchanged, and the result satisfies its invariant |
| CalculationResults.GrandTotalIsDifference | src/OneStop.Domain/Models/BasketCalculationResult.cs:42-44 | with whole-cent inputs where 0 ≤ discount ≤ total and points ≥ 0, construction succeeds, rounding changes nothing and the grand total is total minus discount |
| CalculationResults.GrandTotalCanDifferFromDifference | src/OneStop.Domain/Models/BasketCalculationResult.cs:44 | raw 0.015 and 0.01 give fields 0.02 and 0.01 but a grand total of 0.00 |
| BasketCalculator.Applicable | src/OneStop.Domain/Services/BasketCalculatorService.cs:73-75 | exactly the promotions that apply to the id, and more than one of them exactly when the id is covered twice |
| BasketCalculator.ApplicableByHead | src/OneStop.Domain/Services/BasketCalculatorService.cs:73-75 | the filter keeps the head exactly when it applies, then filters the tail; a single promotion is kept exactly when it applies |
| BasketCalculator.ApplicableKeepsOrder | src/OneStop.Domain/Services/BasketCalculatorService.cs:73-75 | `Where` keeps order and multiplicity: the filter of a concatenation is the concatenation of the filters |
| BasketCalculator.FindApplicableDiscount | src/OneStop.Domain/Services/BasketCalculatorService.cs:90-95 | null exactly when no promotion applies, otherwise the first that applies |
| BasketCalculator.PromotionIds | src/OneStop.Domain/Services/BasketCalculatorService.cs:81 | the promotions' ids, in order |
| BasketCalculator.FirstOverlap | src/OneStop.Domain/Services/BasketCalculatorService.cs:71-84 | none exactly when no line's id is covered twice, otherwise the error for the first such line |
| BasketCalculator.ValidateNoOverlappingDiscounts | src/OneStop.Domain/Services/BasketCalculatorService.cs:67-85 | the loop stops with the error of the first line covered twice, or finishes with none |
| BasketCalculator.LineDiscount | src/OneStop.Domain/Services/BasketCalculatorService.cs:40-41 | zero when no promotion covers the product, and whole cents always |
| BasketCalculator.SumLines | src/OneStop.Domain/Services/BasketCalculatorService.cs:30-49 | the three running totals are the sums over the lines of the line total, the line discount and the qualifying amount |
| BasketCalculator.Calculate | src/OneStop.Domain/Services/BasketCalculatorService.cs:15-57 | returns or throws exactly what `CalculateSpec` does, which the lemmas below characterise |
| BasketCalculator.CalculateRejectsMissingOrEmptyBasket | src/OneStop.Domain/Services/BasketCalculatorService.cs:21-25 | null lines or promotions give the null-argument error; an empty basket gives "Basket cannot be empty." |
| BasketCalculator.CalculateRejectsOverlap | src/OneStop.Domain/Services/BasketCalculatorService.cs:27-28 | a line covered twice makes the call fail with the overlap error of some line at or before it |
| BasketCalculator.OverlapErrorNamesAll | src/OneStop.Domain/Services/BasketCalculatorService.cs:73-82 | the overlap error names the product and every promotion covering it, at least two |
| BasketCalculator.OverlapErrorNamesOnlyCovering | src/OneStop.Domain/Services/BasketCalculatorService.cs:73-81 | every id the overlap error names belongs to a promotion covering the product |
| BasketCalculator.OverlapMessageNamesAll | src/OneStop.Domain/Services/BasketCalculatorService.cs:79-82 | the overlap message contains the product id and each promotion id |
| BasketCalculator.CalculateReportsRoundedSums | src/OneStop.Domain/Services/BasketCalculatorService.cs:51-56 | on success the figures are the rounded sums; points are 0 without a card or points promotion and otherwise the floored qualifying amount |
| BasketCalculator.TotalIgnoresPromotions | src/OneStop.Domain/Services/BasketCalculatorService.cs:34-37 | the total amount does not depend on the promotions or the loyalty flag |
| BasketCalculator.FilteredLineCountsOnlyInTotals | src/OneStop.Domain/Services/BasketCalculatorService.cs:44-48 | a line whose category fails the filter adds to the total and the discount but not to the qualifying amount |
| BasketCalculator.CalculatePermutationInvariant | src/OneStop.Domain/Services/BasketCalculatorService.cs:30-49 | reordering the lines changes neither success nor, without overlap, the result |
| BasketCalculator.CentLine | src/OneStop.Domain/Services/BasketCalculatorService.cs:36-42 | a whole-cent line has a whole-cent total and a discount between zero and its total |
| BasketCalculator.CentSums | src/OneStop.Domain/Services/BasketCalculatorService.cs:34-48 | with whole-cent prices the sums are whole cents, 0 ≤ discount ≤ total, and the qualifying amount is non-negative |
| BasketCalculator.CentBasketSucceedsUnlessOverlap | src/OneStop.Domain/Services/BasketCalculatorService.cs:28-56 | with whole-cent prices and valid promotions a non-empty basket succeeds exactly without overlap, with exact total, discount and grand total = total − discount |
| BasketCalculator.CentlessBasketCanBeRejected | src/OneStop.Domain/Services/BasketCalculatorService.cs:41-56 | a 0.015 line with a 100% promotion fails with "Discount cannot exceed total amount." |
| CalculateBasket.ProductIds | src/OneStop.Application/Features/Basket/CalculateBasket.cs:73 | the basket's ids, in basket order |
| CalculateBasket.Absent | src/OneStop.Application/Features/Basket/CalculateBasket.cs:72-74 | exactly the ids the product dictionary does not contain, up to case |
| CalculateBasket.MissingProductIds | src/OneStop.Application/Features/Basket/CalculateBasket.cs:72-76 | the basket ids absent from the dictionary, each once |
| CalculateBasket.MissingIdsInBasketOrder | src/OneStop.Application/Features/Basket/CalculateBasket.cs:72-76 | missing ids are listed in the order of their first appearance in the basket |
| CalculateBasket.BuildLineItems | src/OneStop.Application/Features/Basket/CalculateBasket.cs:84-88 | one line per basket entry in order, each paired with its product, or the first line item constructor's error |
| CalculateBasket.HasLoyaltyCard | src/OneStop.Application/Features/Basket/CalculateBasket.cs:98 | true exactly when the card is present with a non-white-space character |
| CalculateBasket.Handle | src/OneStop.Application/Features/Basket/CalculateBasket.cs:63-117 | a null basket fails with the null-argument error for `source`; any missing id fails with one not-found error keyed by all missing ids comma-joined; success implies every id resolved and echoes the request's customer, card and date |
| CalculateBasket.HandleReportsAllMissing | src/OneStop.Application/Features/Basket/CalculateBasket.cs:78-81 | with a missing id the handler fails with one not-found error keyed by all missing ids comma-joined, whose message contains each, whatever the promotions |
| CalculateBasket.MissingMessageNamesEach | src/OneStop.Application/Features/Basket/CalculateBasket.cs:78-81 | the not-found message built from the missing ids contains the id of every basket line that is not in the catalogue |
| CalculateBasket.HandleIsCalculation | src/OneStop.Application/Features/Basket/CalculateBasket.cs:84-116 | once all ids resolve, the handler passes on the line or calculator error, or echoes customer, card and date with the calculator's four figures |
| CalculateBasket.LookupIgnoresCase | src/OneStop.Application/Features/Basket/CalculateBasket.cs:72-88 | "prd01" resolves to the product stored as PRD01 and the line keeps the request's spelling |
| ProductRepository.GetById | src/OneStop.Infrastructure/Persistence/InMemory/InMemoryProductRepository.cs:25-29 | the product stored under the id up to case, or null |
| ProductRepository.GetByIds | src/OneStop.Infrastructure/Persistence/InMemory/InMemoryProductRepository.cs:32-44 | a failure is the duplicate-key error for a requested id present in the catalogue |
| ProductRepository.GetByIdsFindsRequested | src/OneStop.Infrastructure/Persistence/InMemory/InMemoryProductRepository.cs:36-41 | on success the keys are exactly the requested ids found in the catalogue, each with its catalogue product; unknown ids are skipped |
| ProductRepository.GetByIdsFailsOnRepeat | src/OneStop.Infrastructure/Persistence/InMemory/InMemoryProductRepository.cs:38-41 | the lookup fails exactly when two requested ids name the same catalogue entry up to case |
| ProductRepository.SeedCatalogueValid | src/OneStop.Infrastructure/Persistence/InMemory/InMemoryProductRepository.cs:12-22 | every seeded product sits under its own (already folded) id and passes its constructor checks |
| ProductRepository.SeedPricesInCents | src/OneStop.Infrastructure/Persistence/InMemory/InMemoryProductRepository.cs:14-21 | every seeded price is a whole number of cents |
| ProductRepository.SeedCategories | src/OneStop.Infrastructure/Persistence/InMemory/InMemoryProductRepository.cs:14-21 | PRD01 to PRD03 are fuel, the rest shop items, eight products in all |
| ProductRepository.CaseVariantsCollide | src/OneStop.Infrastructure/Persistence/InMemory/InMemoryProductRepository.cs:36-41 | asking for "prd01" and "PRD01" fails with the duplicate-key error for PRD01 |
| DiscountPromotionRepository.ActiveOn | src/OneStop.Infrastructure/Persistence/InMemory/InMemoryDiscountPromotionRepository.cs:35-37 | exactly the promotions active on the date |
| DiscountPromotionRepository.ActiveOnKeepsOrder | src/OneStop.Infrastructure/Persistence/InMemory/InMemoryDiscountPromotionRepository.cs:35-37 | `Where` keeps order and multiplicity: the filter of a concatenation is the concatenation of the filters, and a single promotion is kept exactly when active |
| DiscountPromotionRepository.GetActiveOnDate | src/OneStop.Infrastructure/Persistence/InMemory/InMemoryDiscountPromotionRepository.cs:31-40 | exactly the seeded promotions active on the date |
| DiscountPromotionRepository.ActiveOnSeed | src/OneStop.Infrastructure/Persistence/InMemory/InMemoryDiscountPromotionRepository.cs:11-40 | the answer is DP001 if active, then DP002 if active, in seed order |
| DiscountPromotionRepository.SeedIsValid | src/OneStop.Infrastructure/Persistence/InMemory/InMemoryDiscountPromotionRepository.cs:13-27 | both seeded promotions pass their constructor checks |
| DiscountPromotionRepository.SeedWindows | src/OneStop.Infrastructure/Persistence/InMemory/InMemoryDiscountPromotionRepository.cs:13-27 | DP001 alone on 1 January and late on 15 February, none on 20 February, DP002 alone on 20 March |
| DiscountPromotionRepository.SeedNeverOverlaps | src/OneStop.Infrastructure/Persistence/InMemory/InMemoryDiscountPromotionRepository.cs:19-27 | on no date is any product covered by two seeded promotions |
| PointsPromotionRepository.FirstActive | src/OneStop.Infrastructure/Persistence/InMemory/InMemoryPointsPromotionRepository.cs:45 | null exactly when none is active, otherwise the first active promotion |
| PointsPromotionRepository.GetActiveOnDate | src/OneStop.Infrastructure/Persistence/InMemory/InMemoryPointsPromotionRepository.cs:40-47 | null exactly when no seeded promotion is active on the date |
| PointsPromotionRepository.SeedIsValid | src/OneStop.Infrastructure/Persistence/InMemory/InMemoryPointsPromotionRepository.cs:14-36 | the three seeded promotions pass their constructor checks |
| PointsPromotionRepository.SeedWindowsDisjoint | src/OneStop.Infrastructure/Persistence/InMemory/InMemoryPointsPromotionRepository.cs:14-36 | no two seeded points promotions are active on the same date |
| PointsPromotionRepository.GetActiveOnDateIsTheActiveOne | src/OneStop.Infrastructure/Persistence/InMemory/InMemoryPointsPromotionRepository.cs:44-45 | the query returns a promotion exactly when it is seeded and active on the date |
| PointsPromotionRepository.NoPromotionBetweenWindows | src/OneStop.Infrastructure/Persistence/InMemory/InMemoryPointsPromotionRepository.cs:12-46 | none on 31 January or 20 February; PP002 on 10 February |
| SeededHandler.HandleWithSeed | src/OneStop.Application/Features/Basket/CalculateBasket.cs:68-95 | a null basket fails first; a lookup failure is passed on; otherwise the handler runs on the lookup result and the promotions active on the date |
| SeededHandler.HandleOverlapNeedsDoubleCover | src/OneStop.Application/Features/Basket/CalculateBasket.cs:101-105 | when no product is covered twice the handler never fails with the overlap error |
| SeededHandler.SeedNeverRejectsOverlap | src/OneStop.Infrastructure/Persistence/InMemory/InMemoryDiscountPromotionRepository.cs:19-27 | with the seeded data no request on any date fails with the overlap error |
| SeededHandler.MixedCaseBasketFails | src/OneStop.Application/Features/Basket/CalculateBasket.cs:68-69 | a basket holding "prd01" and "PRD01" fails in the lookup with the duplicate-key error |
| SeededHandler.FebruaryFuelCalculation | src/OneStop.Domain/Services/BasketCalculatorService.cs:30-56 | 10 × PRD02 under DP001 and PP002 with a card gives 13.00, 2.60, 10.40 and 31 points |
| SeededHandler.FebruaryFuelLookup | src/OneStop.Application/Features/Basket/CalculateBasket.cs:68-88 | the lookup for 10 × PRD02 finds one product, nothing is missing and one line is built |
| SeededHandler.FebruaryFuelRepositories | src/OneStop.Application/Features/Basket/CalculateBasket.cs:91-95 | on 10 February 2020 the repositories answer DP001 and PP002 |
| SeededHandler.FebruaryFuelPurchase | src/OneStop.Application/Features/Basket/CalculateBasket.cs:63-117 | the whole request returns the echoed fields with 13.00, 2.60, 10.40 and 31 points |
| ValidationExceptions.AddMessage | src/OneStop.Application/Exceptions/ValidationException.cs:20-21 | a new property becomes the last key with its one message; a known one gets the message appended, other keys unchanged |
| ValidationExceptions.GroupKeysAreDistinctNames | src/OneStop.Application/Exceptions/ValidationException.cs:19-21 | the keys are the distinct property names in first-appearance order |
| ValidationExceptions.GroupByProperty | src/OneStop.Application/Exceptions/ValidationException.cs:19-21 | `GroupBy` then `ToDictionary`: no more groups than failures, and every group holds at least one message |
| ValidationExceptions.GroupMessagesInOrder | src/OneStop.Application/Exceptions/ValidationException.cs:19-21 | each key holds exactly its property's messages in input order |
| ValidationExceptions.EmptyValidationException | src/OneStop.Application/Exceptions/ValidationException.cs:12-15 | the fixed message and an empty error map |
| ValidationExceptions.ValidationExceptionFrom | src/OneStop.Application/Exceptions/ValidationException.cs:17-22 | the fixed message; keys the distinct property names, each with its messages in order |
| ValidationExceptions.ValidationExceptionFor | src/OneStop.Application/Exceptions/ValidationException.cs:24-30 | the fixed message and one key mapped to a one-message list |
| CalculateBasketValidator.ItemFailures | src/OneStop.Application/Features/Basket/CalculateBasketValidator.cs:26-35 | an item yields no failure exactly when its id is non-blank and its quantity positive; every failure is filed under a `Basket[i].` path |
| CalculateBasketValidator.ItemsFailures | src/OneStop.Application/Features/Basket/CalculateBasketValidator.cs:26-35 | no failure exactly when every item from the index on is well formed; every failure is filed under a `Basket[i].` path |
| CalculateBasketValidator.BasketFailures | src/OneStop.Application/Features/Basket/CalculateBasketValidator.cs:20-35 | "Basket is required." exactly for a null basket, "Basket cannot be empty." exactly for a null or empty one, item failures only for a present basket, and never a customer or date failure |
| CalculateBasketValidator.Validate | src/OneStop.Application/Features/Basket/CalculateBasketValidator.cs:10-36 | each command-level rule reports its failure exactly when its condition fails: empty customer id, default date, null basket, null or empty basket; item failures only with a basket |
| CalculateBasketValidator.ValidateAcceptsExactlyValid | src/OneStop.Application/Features/Basket/CalculateBasketValidator.cs:12-35 | no failures exactly when customer id and date are set, the basket is present and non-empty, and every item is well formed |
| CalculateBasketValidator.ValidCommandBuildsLines | src/OneStop.Application/Features/Basket/CalculateBasketValidator.cs:26-35 | a valid command whose ids all resolve never fails in line item construction |
| CalculateBasketValidator.MissingBasketFailsBothRules | src/OneStop.Application/Features/Basket/CalculateBasketValidator.cs:20-24 | a null basket yields "Basket is required." and "Basket cannot be empty." under the key Basket |
| CalculateBasketValidator.BasketMessagesGroup | src/OneStop.Application/Exceptions/ValidationException.cs:19-21 | the two basket failures group into the single key "Basket" with both messages in rule order |
| GlobalExceptionHandler.CleanedTailIsSlice | src/OneStop.Presentation/Exceptions/GlobalExceptionHandler.cs:125 | trimming then dropping trailing dots leaves a slice with only white space before it and white space or dots after it |
| GlobalExceptionHandler.CleanedTailEnds | src/OneStop.Presentation/Exceptions/GlobalExceptionHandler.cs:125 | the cleaned text neither starts with white space nor ends with a dot |
| GlobalExceptionHandler.PropertiesPart | src/OneStop.Presentation/Exceptions/GlobalExceptionHandler.cs:122-126 | exactly `TrimEndChar(Trim(tail), '.')` of the text after "including:": a slice of it with only white space before and only white space or dots after, neither starting with white space nor ending with a dot |
| GlobalExceptionHandler.ExtractJsonErrorMessage | src/OneStop.Presentation/Exceptions/GlobalExceptionHandler.cs:112-137 | the missing-fields text when both markers occur, else the fixed type text when "could not be converted" occurs, else the prefixed original |
| GlobalExceptionHandler.MapBadHttpRequestException | src/OneStop.Presentation/Exceptions/GlobalExceptionHandler.cs:94-110 | 400 "BadRequestError", with the rewritten JSON message or the exception's own |
| GlobalExceptionHandler.MapException | src/OneStop.Presentation/Exceptions/GlobalExceptionHandler.cs:44-92 | the status and body for each error kind in declaration order: a bad request is `MapBadHttpRequestException` of its text and inner exception; 500 exactly for the catch-all; only validation errors carry the error map |
| GlobalExceptionHandler.ServerErrorOnlyForUnexpected | src/OneStop.Presentation/Exceptions/GlobalExceptionHandler.cs:84-91 | the status is 500 or above exactly for an unexpected error |
| GlobalExceptionHandler.InternalErrorsRevealNothing | src/OneStop.Presentation/Exceptions/GlobalExceptionHandler.cs:84-90 | an unexpected error's response is the same whatever the exception, and is not its message |
| GlobalExceptionHandler.ResponseTypeIdentifiesKind | src/OneStop.Presentation/Exceptions/GlobalExceptionHandler.cs:46-91 | two errors with the same response type are of the same kind |

## Left out

- Host startup, dependency injection, MediatR dispatch, the logging behaviour, `async`/`Task`/`CancellationToken` and the HTTP endpoints with their "dd-MMM-yyyy" date parsing. The transaction date is taken as already parsed.
- `GlobalExceptionHandler.TryHandleAsync`: it only logs and writes the mapped status and body to the HTTP response.
- The request, response and error contract records: JSON field shaping only. `ErrorResponse` is kept as a plain value.
- `decimal` overflow and the range of the `(int)` cast in `CalculatePoints`: amounts are unbounded reals and points unbounded integers.
- Calendar validity: dates are (year, month, day, seconds) as given, with no check that a day exists.
- `Guid` is a natural number with the empty Guid as 0; Guid generation is not modelled.
- BasketLineItems.BasketLineItem.GetHashCode: `HashCode.Combine` mixing is replaced by a stand-in over the id and quantity; only "equal items hash alike" is stated.
- Reference equality: items are values, so `ReferenceEquals` reduces to value equality.
- Case folding covers ASCII letters only; `OrdinalIgnoreCase` also folds non-ASCII letters.
- CalculateBasket.Handle: it takes the repositories' answers as inputs. The product dictionary is keyed by folded ids, which matches lookups through its `OrdinalIgnoreCase` comparer but does not keep the requested spelling of a key. `SeededHandler.HandleWithSeed` supplies the seeded repositories.
- CalculateBasket.Handle: the products in the dictionary are assumed to have passed their constructor (`ValidProductMap`), as every C# `Product` has.
- BasketCalculator.Calculate: its lines and promotions are assumed constructed (`ValidLines`), as every C# entity is. Whether the discount fits under the total and whether the grand total is the exact difference are proved only for whole-cent prices, because both can fail otherwise (see above).
- The FluentValidation pipeline behaviour that runs the validator and throws the `ValidationException` is outside this model; the validator is a function from a command to its failures.
