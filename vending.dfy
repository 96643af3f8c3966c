/** The vending transaction engine: `FoodVendingMachine` and the purchase
    protocol it runs. Money is exact (`real`); quantities are unbounded ints. */
module Vending {
  import opened Wrappers
  import opened Selections
  import opened Inventory

  /** The errors a purchase can fail with; `InsufficientFunds` carries the shortfall. */
  datatype VendingMachineError = InvalidSelection | OutOfStock | InsufficientFunds(required: real)

  /** The machine's mutable state as a value. */
  datatype MachineState = MachineState(inventory: map<VendingSelection, Item>, amountDeposited: real)

  /** The amount balance a machine starts with. */
  const InitialDeposit: real := 10.0

  /** The price of `quantity` units of `item`. */
  function TotalPrice(item: Item, quantity: int): (total: real)
  {
    item.price * quantity as real
  }

  /** One `vend(selection:quantity:)` call on a state: the three checks in the
      source's order (selection present, enough stock, enough money), then the
      new state, or the error the call throws. */
  function Vended(state: MachineState, selection: VendingSelection, quantity: int)
    : (r: Result<MachineState, VendingMachineError>)
  {
    if selection !in state.inventory then
      Failure(VendingMachineError.InvalidSelection)
    else
      var item := state.inventory[selection];
      if !(item.quantity >= quantity) then
        Failure(OutOfStock)
      else
        var totalPrice := TotalPrice(item, quantity);
        if state.amountDeposited >= totalPrice then
          Success(MachineState(
            state.inventory[selection := item.(quantity := item.quantity - quantity)],
            state.amountDeposited - totalPrice))
        else
          Failure(InsufficientFunds(totalPrice - state.amountDeposited))
  }

  /** One `deposit(_:)` call on a state. */
  function Deposited(state: MachineState, amount: real): (after: MachineState)
  {
    state.(amountDeposited := state.amountDeposited + amount)
  }

  class FoodVendingMachine {
    const selection: seq<VendingSelection> := FoodSelection
    var inventory: map<VendingSelection, Item>
    var amountDeposited: real

    function State(): (state: MachineState)
      reads this
    {
      MachineState(inventory, amountDeposited)
    }

    /** A machine over a caller-supplied inventory, with the default balance. */
    constructor (inventory: map<VendingSelection, Item>)
      ensures this.inventory == inventory
      ensures amountDeposited == InitialDeposit
    {
      this.inventory := inventory;
      amountDeposited := InitialDeposit;
    }

    /** Sells `quantity` units of `selection`, or throws and changes nothing. */
    method Vend(selection: VendingSelection, quantity: int) returns (r: Outcome<VendingMachineError>)
      modifies this
      ensures Vended(old(State()), selection, quantity).Success? ==>
        r == Pass && State() == Vended(old(State()), selection, quantity).value
      ensures Vended(old(State()), selection, quantity).Failure? ==>
        r == Fail(Vended(old(State()), selection, quantity).error) && State() == old(State())
    {
      if selection !in inventory {
        return Fail(VendingMachineError.InvalidSelection);
      }
      var item := inventory[selection];
      if !(item.quantity >= quantity) {
        return Fail(OutOfStock);
      }
      var totalPrice := TotalPrice(item, quantity);
      if amountDeposited >= totalPrice {
        amountDeposited := amountDeposited - totalPrice;
        item := item.(quantity := item.quantity - quantity);
        inventory := inventory[selection := item];
        r := Pass;
      } else {
        var amountRequired := totalPrice - amountDeposited;
        r := Fail(InsufficientFunds(amountRequired));
      }
    }

    /** `item(forSelection:)`: the record of `selection`, if the machine stocks it. */
    function ItemFor(selection: VendingSelection): (r: Option<Item>)
      reads this
      ensures r.Some? <==> selection in inventory
      ensures r.Some? ==> r.value == inventory[selection]
    {
      if selection in inventory then Some(inventory[selection]) else None
    }

    /** Adds `amount` to the balance; the inventory is untouched. */
    method Deposit(amount: real)
      modifies this
      ensures State() == Deposited(old(State()), amount)
      ensures amountDeposited == old(amountDeposited) + amount && inventory == old(inventory)
    {
      amountDeposited := amountDeposited + amount;
    }
  }
}
