/** Item records and the conversion of a property-list dictionary into an
    inventory (`InventoryUnarchiver.vendingInventory`). */
module Inventory {
  import opened Wrappers
  import opened Selections

  /** One product's record: its price and the number still in stock. */
  datatype Item = Item(price: real, quantity: int)

  /** The errors of loading an inventory. Only `InvalidSelection` is raised by
      the conversion; the other two belong to reading the property-list file. */
  datatype InventoryError = InvalidResource | ConversionFailure | InvalidSelection

  /** A property-list value, as far as the conversion's casts can tell them
      apart: a nested dictionary, a number, or anything else (string, array,
      date, data, boolean). */
  datatype PlistValue =
    | Dictionary(entries: map<string, PlistValue>)
    | Number(number: real)
    | Other

  /** `value as? Double`: every number converts. */
  function AsDouble(v: PlistValue): (r: Option<real>)
    ensures r.Some? <==> v.Number?
    ensures r.Some? ==> r.value == v.number
  {
    match v
    case Number(n) => Some(n)
    case _ => None
  }

  /** The range of Swift's 64-bit `Int`. */
  const IntMin: int := -0x8000_0000_0000_0000
  const IntMax: int := 0x7FFF_FFFF_FFFF_FFFF

  /** `value as? Int`: a number converts only when it is whole and fits in a
      64-bit `Int`. */
  function AsInt(v: PlistValue): (r: Option<int>)
    ensures r.Some? <==> v.Number? && v.number == v.number.Floor as real
                         && IntMin <= v.number.Floor <= IntMax
    ensures r.Some? ==> r.value as real == v.number && IntMin <= r.value <= IntMax
  {
    match v
    case Number(n) =>
      if n.Floor as real == n && IntMin <= n.Floor <= IntMax then Some(n.Floor) else None
    case _ => None
  }

  /** The cast of one dictionary value to an item: it must be a dictionary
      whose "price" is a Double and whose "quantity" is an Int. */
  function ItemEntry(v: PlistValue): (r: Option<Item>)
    ensures r.Some? <==>
      && v.Dictionary?
      && "price" in v.entries && AsDouble(v.entries["price"]).Some?
      && "quantity" in v.entries && AsInt(v.entries["quantity"]).Some?
    ensures r.Some? ==>
      && r.value.price == v.entries["price"].number
      && r.value.quantity as real == v.entries["quantity"].number
  {
    if v.Dictionary? && "price" in v.entries && "quantity" in v.entries then
      match (AsDouble(v.entries["price"]), AsInt(v.entries["quantity"]))
      case (Some(price), Some(quantity)) => Some(Item(price, quantity))
      case _ => None
    else
      None
  }

  /** An entry that converts to an item but whose key names no product. */
  ghost predicate IsRejectedKey(dictionary: map<string, PlistValue>, key: string)
  {
    key in dictionary && ItemEntry(dictionary[key]).Some? && Parse(key).None?
  }

  /** `vendingInventory(fromDictionary:)`. Keys are visited in an arbitrary
      order, so the contract holds whatever order the dictionary iterates in.
      It throws exactly when some well-formed entry has a key that is not a
      product's raw value; otherwise the inventory holds exactly the
      well-formed entries, keyed by product, and malformed entries are skipped. */
  method VendingInventory(dictionary: map<string, PlistValue>)
    returns (r: Result<map<VendingSelection, Item>, InventoryError>)
    ensures r.Failure? <==> exists key :: IsRejectedKey(dictionary, key)
    ensures r.Failure? ==> r.error == InvalidSelection
    ensures r.Success? ==> forall s ::
      s in r.value <==> RawValue(s) in dictionary && ItemEntry(dictionary[RawValue(s)]).Some?
    ensures r.Success? ==> forall s :: s in r.value ==>
      r.value[s] == ItemEntry(dictionary[RawValue(s)]).value
  {
    var inventory: map<VendingSelection, Item> := map[];
    var pending := dictionary.Keys;
    ghost var visited: set<string> := {};
    while pending != {}
      invariant visited + pending == dictionary.Keys && visited !! pending
      invariant forall key :: key in visited ==> !IsRejectedKey(dictionary, key)
      invariant forall s :: s in inventory <==>
        RawValue(s) in visited && ItemEntry(dictionary[RawValue(s)]).Some?
      invariant forall s :: s in inventory ==>
        inventory[s] == ItemEntry(dictionary[RawValue(s)]).value
      decreases pending
    {
      var key :| key in pending;
      pending := pending - {key};
      visited := visited + {key};
      var item := ItemEntry(dictionary[key]);
      if item.Some? {
        var selection := Parse(key);
        if selection.None? {
          assert IsRejectedKey(dictionary, key);
          return Failure(InvalidSelection);
        }
        inventory := inventory[selection.value := item.value];
      }
    }
    return Success(inventory);
  }
}
