/** What the purchase protocol guarantees, stated over the step functions
    `Vended` and `Deposited` that the machine's methods are proved to follow. */
module VendingProperties {
  import opened Wrappers
  import opened Selections
  import opened Inventory
  import opened Vending

  /** A selection the machine does not stock is refused, whatever else holds. */
  lemma VendUnknownSelection(state: MachineState, selection: VendingSelection, quantity: int)
    requires selection !in state.inventory
    ensures Vended(state, selection, quantity) == Failure(VendingMachineError.InvalidSelection)
  {
  }

  /** Too few in stock is reported as `OutOfStock` even when the money would
      not suffice either: the stock check comes first. */
  lemma VendOutOfStock(state: MachineState, selection: VendingSelection, quantity: int)
    requires selection in state.inventory
    requires state.inventory[selection].quantity < quantity
    ensures Vended(state, selection, quantity) == Failure(OutOfStock)
  {
  }

  /** Enough stock but too little money: the error carries the exact,
      strictly positive shortfall. */
  lemma VendInsufficientFunds(state: MachineState, selection: VendingSelection, quantity: int)
    requires selection in state.inventory
    requires quantity <= state.inventory[selection].quantity
    requires state.amountDeposited < TotalPrice(state.inventory[selection], quantity)
    ensures Vended(state, selection, quantity).Failure?
    ensures Vended(state, selection, quantity).error ==
      InsufficientFunds(TotalPrice(state.inventory[selection], quantity) - state.amountDeposited)
    ensures Vended(state, selection, quantity).error.required > 0.0
  {
  }

  /** A purchase succeeds exactly when the product is stocked, enough units
      remain and the balance covers the price (both bounds inclusive). */
  lemma VendSucceedsIff(state: MachineState, selection: VendingSelection, quantity: int)
    ensures Vended(state, selection, quantity).Success? <==>
      && selection in state.inventory
      && quantity <= state.inventory[selection].quantity
      && TotalPrice(state.inventory[selection], quantity) <= state.amountDeposited
  {
  }

  /** After a purchase the balance drops by the price, the product's stock by
      the quantity; its price, its place in the inventory and every other
      product's record are unchanged. */
  lemma VendSuccessEffect(state: MachineState, selection: VendingSelection, quantity: int)
    requires Vended(state, selection, quantity).Success?
    ensures var after := Vended(state, selection, quantity).value;
      && after.amountDeposited ==
           state.amountDeposited - state.inventory[selection].price * quantity as real
      && after.inventory.Keys == state.inventory.Keys
      && after.inventory[selection].price == state.inventory[selection].price
      && after.inventory[selection].quantity == state.inventory[selection].quantity - quantity
      && forall other :: other in state.inventory && other != selection ==>
           after.inventory[other] == state.inventory[other]
  {
  }

  /** A purchase never leaves the balance or the sold product's stock negative,
      whatever quantity was asked for. */
  lemma VendNeverNegative(state: MachineState, selection: VendingSelection, quantity: int)
    requires Vended(state, selection, quantity).Success?
    ensures Vended(state, selection, quantity).value.amountDeposited >= 0.0
    ensures Vended(state, selection, quantity).value.inventory[selection].quantity >= 0
  {
  }

  /** A state whose balance and stock counts are all non-negative. */
  ghost predicate Sound(state: MachineState)
  {
    && state.amountDeposited >= 0.0
    && forall s :: s in state.inventory ==> state.inventory[s].quantity >= 0
  }

  /** Purchases keep a sound state sound. */
  lemma VendPreservesSound(state: MachineState, selection: VendingSelection, quantity: int)
    requires Sound(state)
    requires Vended(state, selection, quantity).Success?
    ensures Sound(Vended(state, selection, quantity).value)
  {
  }

  /** Deposits of a non-negative amount keep a sound state sound. */
  lemma DepositPreservesSound(state: MachineState, amount: real)
    requires Sound(state)
    requires amount >= 0.0
    ensures Sound(Deposited(state, amount))
  {
  }

  /** Paying exactly the price for exactly the remaining stock succeeds and
      leaves a zero balance and a zero count; the product stays listed. */
  lemma VendExactFundsAndStock(state: MachineState, selection: VendingSelection)
    requires selection in state.inventory
    requires state.amountDeposited ==
      TotalPrice(state.inventory[selection], state.inventory[selection].quantity)
    ensures var r := Vended(state, selection, state.inventory[selection].quantity);
      && r.Success?
      && r.value.amountDeposited == 0.0
      && selection in r.value.inventory
      && r.value.inventory[selection].quantity == 0
  {
  }

  /** The credit a purchase spends is the value, at the product's price, of
      the units that left the machine's stock. */
  lemma VendChargesDispensedValue(state: MachineState, selection: VendingSelection, quantity: int)
    requires Vended(state, selection, quantity).Success?
    ensures var after := Vended(state, selection, quantity).value;
      var dispensed := state.inventory[selection].quantity - after.inventory[selection].quantity;
      state.amountDeposited - after.amountDeposited ==
        state.inventory[selection].price * dispensed as real
  {
  }

  /** The source does not reject a negative quantity: for a product with a
      positive price and stock, such a "purchase" succeeds and raises both the
      stock and the balance. */
  lemma VendNegativeQuantityRestocks(state: MachineState, selection: VendingSelection, quantity: int)
    requires Sound(state)
    requires selection in state.inventory
    requires state.inventory[selection].price > 0.0
    requires quantity < 0
    ensures Vended(state, selection, quantity).Success?
    ensures Vended(state, selection, quantity).value.inventory[selection].quantity >
      state.inventory[selection].quantity
    ensures Vended(state, selection, quantity).value.amountDeposited > state.amountDeposited
  {
  }

  /** Two deposits leave the same state as one deposit of their sum. */
  lemma DepositsCompose(state: MachineState, a: real, b: real)
    ensures Deposited(Deposited(state, a), b) == Deposited(state, a + b)
    ensures Deposited(state, a).inventory == state.inventory
  {
  }

  /** Worked purchases on a machine holding three sodas at 1.50 and water at
      12.00, with the default balance of 10.00. */
  lemma VendScenarios()
    ensures var stock := map[Soda := Item(1.5, 3), Water := Item(12.0, 5)];
      var state := MachineState(stock, InitialDeposit);
      && Vended(state, Soda, 2) == Success(MachineState(stock[Soda := Item(1.5, 1)], 7.0))
      && Vended(state, Soda, 4) == Failure(OutOfStock)
      && Vended(state, Water, 1) == Failure(InsufficientFunds(2.0))
      && Vended(state, Gum, 1) == Failure(VendingMachineError.InvalidSelection)
      && Vended(MachineState(map[Water := Item(10.0, 1)], InitialDeposit), Water, 1) ==
           Success(MachineState(map[Water := Item(10.0, 0)], 0.0))
  {
    var stock := map[Soda := Item(1.5, 3), Water := Item(12.0, 5)];
    assert stock[Soda := Item(1.5, 3).(quantity := 1)] == stock[Soda := Item(1.5, 1)];
    assert map[Water := Item(10.0, 1)][Water := Item(10.0, 0)] == map[Water := Item(10.0, 0)];
  }
}
