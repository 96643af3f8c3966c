# Vending machine core in Dafny

A model of the purchase logic of the `VendingMachine` iOS app
(`VendingMachine/VendingMachine.swift`) with proofs of its guarantees.

- `Selections` (`selections.dfy`): the twelve products (`enum VendingSelection: String`).
  `RawValue` gives a product's raw string and `Parse` is `VendingSelection(rawValue:)`.
  `FoodSelection` is the machine's fixed display list.
- `Inventory` (`inventory.dfy`): the item record `Item(price, quantity)` and the
  loading errors `InventoryError`. `PlistValue` is a property-list value as the
  `as?` casts see it. The method `VendingInventory` is
  `InventoryUnarchiver.vendingInventory`. It is a loop over the dictionary's keys,
  taken in an arbitrary order, and its contract holds for every order.
- `Vending` (`vending.dfy`): `VendingMachineError` and the class
  `FoodVendingMachine`. The class's fields `inventory` and `amountDeposited` are
  updated in place by `Vend` and `Deposit`. `MachineState` is those two fields as
  a value. The functions `Vended` and `Deposited` give one call's effect on a
  state. Each method is proved to follow its function. After a failed `Vend` the
  state is unchanged.
- `VendingProperties` (`vending_properties.dfy`): lemmas about `Vended` and
  `Deposited`. They cover the order of the checks, the exact shortfall, the
  effect of a successful purchase, the inclusive bounds, non-negativity, and
  deposits composing.

Modelling choices:

- Prices and balances are Swift `Double`s. The model uses exact `real` numbers.
  Quantities are unbounded `int`s.
- The code has no guard on the requested quantity or on the deposited amount, so
  the model has none either. `vend` with quantity 0 or less runs the same three
  checks. The lemma `VendNegativeQuantityRestocks` shows that a negative quantity
  succeeds and raises both the stock and the balance. A negative deposit lowers
  the balance.
- `as? Double` succeeds on every property-list number. `as? Int` succeeds only on
  whole numbers within the range of a 64-bit `Int`. Anything else fails both
  casts.

## Model

| member | source | states |
|---|---|---|
| `Selections.Parse` | VendingMachine/VendingMachine.swift:12-24 | `Parse(key)` returns product `s` exactly when `key` is `s`'s raw value. Every other string gives nothing. |
| `Selections.ParseRawValue` | VendingMachine/VendingMachine.swift:12-24 | Parsing a product's raw value gives back that product, so no two products share a raw value. |
| `Selections.FoodSelectionListsEveryCaseOnce` | VendingMachine/VendingMachine.swift:113 | The machine's selection list has 12 entries. It names every product, and none twice. |
| `Inventory.AsDouble` | VendingMachine/VendingMachine.swift:88 | The price cast succeeds exactly on numbers and keeps their value. |
| `Inventory.AsInt` | VendingMachine/VendingMachine.swift:89 | The quantity cast succeeds exactly on whole numbers within the 64-bit `Int` range and keeps their value. |
| `Inventory.ItemEntry` | VendingMachine/VendingMachine.swift:88-90 | An entry gives an item exactly when it is a dictionary whose "price" passes the price cast and whose "quantity" passes the quantity cast. The item holds those two values. |
| `Inventory.VendingInventory` | VendingMachine/VendingMachine.swift:82-103 | The conversion throws `invalidSelection` exactly when some well-formed entry's key is no product's raw value. Otherwise it holds exactly the well-formed entries, keyed by product, with their price and quantity. Malformed entries are skipped. This holds for any iteration order. |
| `Vending.FoodVendingMachine.constructor` | VendingMachine/VendingMachine.swift:114-118 | The machine starts with the given inventory and a balance of 10.0. |
| `Vending.FoodVendingMachine.Vend` | VendingMachine/VendingMachine.swift:120-139 | On success the new inventory and balance are those `Vended` gives. On failure it returns `Vended`'s error and changes neither field. |
| `Vending.FoodVendingMachine.ItemFor` | VendingMachine/VendingMachine.swift:141-143 | Returns the selection's record if the inventory has one, and nothing otherwise. |
| `Vending.FoodVendingMachine.Deposit` | VendingMachine/VendingMachine.swift:145-147 | The balance grows by exactly the amount and the inventory is unchanged. |
| `VendingProperties.VendUnknownSelection` | VendingMachine/VendingMachine.swift:121-123 | A selection missing from the inventory fails with `invalidSelection`, whatever the quantity and balance. |
| `VendingProperties.VendOutOfStock` | VendingMachine/VendingMachine.swift:125-127 | A request for more than the stock fails with `outOfStock`, even when the funds are also short. |
| `VendingProperties.VendInsufficientFunds` | VendingMachine/VendingMachine.swift:129-137 | If stock suffices but the balance is below the price times the quantity, the call fails with `insufficientFunds`. The error carries exactly the total price (price times quantity) minus the balance, which is strictly positive. |
| `VendingProperties.VendSucceedsIff` | VendingMachine/VendingMachine.swift:120-139 | A purchase succeeds if and only if the product is stocked, the quantity is at most the stock and the total price is at most the balance. |
| `VendingProperties.VendSuccessEffect` | VendingMachine/VendingMachine.swift:129-134 | On success the balance falls by the price times the quantity and the product's stock falls by the quantity. The product's price, the set of products and every other record are unchanged. |
| `VendingProperties.VendNeverNegative` | VendingMachine/VendingMachine.swift:125-133 | After a successful purchase the balance and the sold product's stock are non-negative, whatever quantity was asked for. |
| `VendingProperties.VendPreservesSound` | VendingMachine/VendingMachine.swift:120-139 | A purchase keeps a state with a non-negative balance and non-negative stock counts in that condition. |
| `VendingProperties.DepositPreservesSound` | VendingMachine/VendingMachine.swift:145-147 | A non-negative deposit keeps a state with a non-negative balance and non-negative stock counts in that condition. |
| `VendingProperties.VendExactFundsAndStock` | VendingMachine/VendingMachine.swift:125-134 | Buying all the remaining stock with exactly its price succeeds. The balance becomes 0 and the count becomes 0, and the product stays in the inventory. |
| `VendingProperties.VendChargesDispensedValue` | VendingMachine/VendingMachine.swift:129-134 | The balance a purchase spends equals the product's price times the number of units that left the stock. |
| `VendingProperties.VendNegativeQuantityRestocks` | VendingMachine/VendingMachine.swift:125-133 | The code as written accepts a negative quantity. For a positive-priced product in a sound state, such a request succeeds and raises both the stock and the balance. |
| `VendingProperties.DepositsCompose` | VendingMachine/VendingMachine.swift:145-147 | Depositing `a` and then `b` gives the same state as depositing `a + b`. A deposit never changes the inventory. |
| `VendingProperties.VendScenarios` | VendingMachine/VendingMachine.swift:120-139 | Worked examples, starting from three sodas at 1.50, five waters at 12.00 and a balance of 10.00. Two sodas leave 7.00 and one soda. Four sodas are out of stock. One water is short by 2.00. Gum is an invalid selection. A single 10.00 item with exactly 10.00 deposited succeeds and leaves 0.00 and a zero count. |

## Left out

- `VendingSelection.icon()` (lines 26-32): an image-asset lookup with a fallback. It is presentation only.
- `PlistConverter.dictionary` (lines 62-78): reads a bundled file and casts its contents. The model takes its output, a string-keyed dictionary, as the input of `VendingInventory`. Its errors `invalidResource` and `conversionFailure` appear only as constructors of `InventoryError`.
- The protocols `VendingItem` and `VendingMachine` (lines 35-49): the model covers only the concrete `Item` and `FoodVendingMachine`.
- Floating point: `Double` rounding in `price * Double(quantity)` and in the balance updates is not modelled. Arithmetic on `real` is exact.
- Swift `Int` overflow: overflow in `item.quantity -= quantity` traps at run time in Swift. The model's integers are unbounded, so this trap is not modelled.
- Property-list booleans, strings, arrays, dates and data are one case, `Other`, that fails both numeric casts. How Swift bridges a boolean `NSNumber` to `Int` or `Double` is not modelled. Neither is the limit on which whole numbers a `Double` can represent exactly.
- Swift dictionary iteration order: the loop in `VendingInventory` picks keys in an arbitrary order, which covers every order rather than one.
