/** The closed set of products a machine can offer (`enum VendingSelection:
    String`) and Swift's synthesised raw-value conversions for it. */
module Selections {
  import opened Wrappers

  datatype VendingSelection =
    | Soda | DietSoda | Chips | Cookie | Sandwich | Wrap
    | CandyBar | PopTart | Water | FruitJuice | SportsDrink | Gum

  /** The raw value of a case: its Swift case name as a string. */
  function RawValue(s: VendingSelection): (r: string)
    ensures |r| > 0
  {
    match s
    case Soda => "soda"
    case DietSoda => "dietSoda"
    case Chips => "chips"
    case Cookie => "cookie"
    case Sandwich => "sandwich"
    case Wrap => "wrap"
    case CandyBar => "candyBar"
    case PopTart => "popTart"
    case Water => "water"
    case FruitJuice => "fruitJuice"
    case SportsDrink => "sportsDrink"
    case Gum => "gum"
  }

  /** `VendingSelection(rawValue:)`: the case whose raw value is `key`, or
      nothing when no case has that raw value. */
  function Parse(key: string): (r: Option<VendingSelection>)
    ensures forall s :: r == Some(s) <==> RawValue(s) == key
  {
    if key == "soda" then Some(Soda)
    else if key == "dietSoda" then Some(DietSoda)
    else if key == "chips" then Some(Chips)
    else if key == "cookie" then Some(Cookie)
    else if key == "sandwich" then Some(Sandwich)
    else if key == "wrap" then Some(Wrap)
    else if key == "candyBar" then Some(CandyBar)
    else if key == "popTart" then Some(PopTart)
    else if key == "water" then Some(Water)
    else if key == "fruitJuice" then Some(FruitJuice)
    else if key == "sportsDrink" then Some(SportsDrink)
    else if key == "gum" then Some(Gum)
    else None
  }

  /** Parsing a raw value gives back the case, so distinct cases have distinct raw values. */
  lemma ParseRawValue(s: VendingSelection)
    ensures Parse(RawValue(s)) == Some(s)
    ensures forall t :: RawValue(t) == RawValue(s) ==> t == s
  {
  }

  /** The products a `FoodVendingMachine` lists, in display order
      (`wrap` comes before `sandwich` here, unlike in the enum). */
  const FoodSelection: seq<VendingSelection> :=
    [Soda, DietSoda, Chips, Cookie, Wrap, Sandwich, CandyBar, PopTart,
     Water, FruitJuice, SportsDrink, Gum]

  /** The machine's list offers every product, each exactly once. */
  lemma FoodSelectionListsEveryCaseOnce()
    ensures |FoodSelection| == 12
    ensures forall s :: s in FoodSelection
    ensures forall i, j :: 0 <= i < j < |FoodSelection| ==> FoodSelection[i] != FoodSelection[j]
  {
    forall s: VendingSelection ensures s in FoodSelection {
      match s
      case Soda => assert FoodSelection[0] == s;
      case DietSoda => assert FoodSelection[1] == s;
      case Chips => assert FoodSelection[2] == s;
      case Cookie => assert FoodSelection[3] == s;
      case Wrap => assert FoodSelection[4] == s;
      case Sandwich => assert FoodSelection[5] == s;
      case CandyBar => assert FoodSelection[6] == s;
      case PopTart => assert FoodSelection[7] == s;
      case Water => assert FoodSelection[8] == s;
      case FruitJuice => assert FoodSelection[9] == s;
      case SportsDrink => assert FoodSelection[10] == s;
      case Gum => assert FoodSelection[11] == s;
    }
  }
}
