/** The request rules that a calculate-basket command must pass, in the order the validator checks them. */
module CalculateBasketValidator {
  import opened Wrappers
  import opened Text
  import opened Calendar
  import opened Errors
  import opened BasketLineItems
  import opened ValidationExceptions
  import opened CalculateBasket

  /** The property path of a field of the `index`-th basket entry, as `Basket[index].Field`. */
  function ItemProperty(index: nat, field: string): string {
    "Basket[" + NatToString(index) + "]." + field
  }

  /** A property path inside a basket entry: it starts with `Basket[`. */
  predicate IsItemPath(propertyName: string) {
    |propertyName| > 6 && propertyName[0] == 'B' && propertyName[6] == '['
  }

  /** The child rules of one basket entry: a non-blank product id, then a positive quantity. */
  function ItemFailures(index: nat, item: BasketItem): (r: seq<ValidationFailure>)
    ensures r == [] <==> !IsBlank(item.productId) && item.quantity > 0
    ensures forall k :: 0 <= k < |r| ==> IsItemPath(r[k].propertyName)
  {
    assert IsItemPath(ItemProperty(index, "ProductId")) && IsItemPath(ItemProperty(index, "Quantity"));
    (if IsBlank(item.productId) then [ValidationFailure(ItemProperty(index, "ProductId"), "Product ID is required.")] else [])
    + (if item.quantity <= 0 then [ValidationFailure(ItemProperty(index, "Quantity"), "Quantity must be greater than zero.")] else [])
  }

  /** `RuleForEach(x => x.Basket)`: the child rules of every entry from `from` on, entry by entry. */
  function ItemsFailures(basket: seq<BasketItem>, from: nat): (r: seq<ValidationFailure>)
    requires from <= |basket|
    ensures r == [] <==> forall i :: from <= i < |basket| ==> !IsBlank(basket[i].productId) && basket[i].quantity > 0
    ensures forall k :: 0 <= k < |r| ==> IsItemPath(r[k].propertyName)
    decreases |basket| - from
  {
    if from == |basket| then []
    else ItemFailures(from, basket[from]) + ItemsFailures(basket, from + 1)
  }

  /** The failures of the command-level rules, by property and message. */
  const CustomerIdRequired := ValidationFailure("CustomerId", "Customer ID is required.")
  const TransactionDateRequired := ValidationFailure("TransactionDate", "Transaction date is required.")
  const BasketRequired := ValidationFailure("Basket", "Basket is required.")
  const BasketNotEmpty := ValidationFailure("Basket", "Basket cannot be empty.")

  /** `RuleFor(x => x.Basket).NotNull().NotEmpty()` and then the child rules of every entry. */
  function BasketFailures(basket: Option<seq<BasketItem>>): (r: seq<ValidationFailure>)
    ensures BasketRequired in r <==> basket.None?
    ensures BasketNotEmpty in r <==> basket.None? || |basket.value| == 0
    ensures CustomerIdRequired !in r && TransactionDateRequired !in r
    ensures forall k :: 0 <= k < |r| && IsItemPath(r[k].propertyName) ==> basket.Some?
  {
    assert !IsItemPath("CustomerId") && !IsItemPath("TransactionDate") && !IsItemPath("Basket");
    match basket
    case None => [BasketRequired, BasketNotEmpty]
    case Some(items) => (if |items| == 0 then [BasketNotEmpty] else []) + ItemsFailures(items, 0)
  }

  /** `CalculateBasketValidator`: every rule runs, and the failures come out in rule order. */
  function Validate(command: CalculateBasketCommand): (r: seq<ValidationFailure>)
    ensures CustomerIdRequired in r <==> command.customerId == EmptyGuid
    ensures TransactionDateRequired in r <==> command.transactionDate == DefaultDateTime
    ensures BasketRequired in r <==> command.basket.None?
    ensures BasketNotEmpty in r <==> command.basket.None? || |command.basket.value| == 0
    ensures forall k :: 0 <= k < |r| && IsItemPath(r[k].propertyName) ==> command.basket.Some?
  {
    (if command.customerId == EmptyGuid then [CustomerIdRequired] else [])
    + (if command.transactionDate == DefaultDateTime then [TransactionDateRequired] else [])
    + BasketFailures(command.basket)
  }

  /** The command the validator accepts. */
  predicate IsValidCommand(command: CalculateBasketCommand) {
    && command.customerId != EmptyGuid
    && command.transactionDate != DefaultDateTime
    && command.basket.Some? && |command.basket.value| > 0
    && forall i :: 0 <= i < |command.basket.value| ==>
      !IsBlank(command.basket.value[i].productId) && command.basket.value[i].quantity > 0
  }

  /** The validator reports nothing exactly for the commands it accepts. */
  lemma ValidateAcceptsExactlyValid(command: CalculateBasketCommand)
    ensures Validate(command) == [] <==> IsValidCommand(command)
  {
    var head := (if command.customerId == EmptyGuid then [CustomerIdRequired] else [])
      + (if command.transactionDate == DefaultDateTime then [TransactionDateRequired] else []);
    assert Validate(command) == head + BasketFailures(command.basket);
  }

  /** A command that passes validation builds every line item without a constructor failure. */
  lemma ValidCommandBuildsLines(command: CalculateBasketCommand, products: ProductMap)
    requires IsValidCommand(command)
    requires MissingProductIds(command.basket.value, products) == []
    ensures ResolvedLines(command.basket.value, products).Success?
  {
  }

  /** A missing basket fails both basket rules, and the error map files both messages under "Basket". */
  lemma MissingBasketFailsBothRules(customerId: Guid, loyaltyCard: Option<string>, transactionDate: DateTime)
    requires customerId != EmptyGuid && transactionDate != DefaultDateTime
    ensures var failures := Validate(CalculateBasketCommand(customerId, loyaltyCard, transactionDate, None));
      ValidationExceptionFrom(failures).errors == [("Basket", ["Basket is required.", "Basket cannot be empty."])]
  {
    var failures := Validate(CalculateBasketCommand(customerId, loyaltyCard, transactionDate, None));
    assert failures == [] + [] + BasketFailures(None);
    assert failures == [BasketRequired, BasketNotEmpty];
    BasketMessagesGroup();
  }

  /** The two basket failures group into one entry under "Basket", in rule order. */
  lemma BasketMessagesGroup()
    ensures GroupByProperty([BasketRequired, BasketNotEmpty]) == [("Basket", ["Basket is required.", "Basket cannot be empty."])]
  {
    var failures := [BasketRequired, BasketNotEmpty];
    assert failures[..1] == [BasketRequired] && [BasketRequired][..0] == [];
    var one := [("Basket", ["Basket is required."])];
    assert GroupByProperty([BasketRequired]) == AddMessage([], "Basket", "Basket is required.") == one;
    assert GroupByProperty(failures) == AddMessage(one, "Basket", "Basket cannot be empty.");
    assert AddMessage(one, "Basket", "Basket cannot be empty.")
      == [("Basket", ["Basket is required."] + ["Basket cannot be empty."])] + one[1..];
    assert one[1..] == [];
    assert ["Basket is required."] + ["Basket cannot be empty."] == ["Basket is required.", "Basket cannot be empty."];
  }
}
