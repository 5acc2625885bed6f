/** Identifiers of the trading system: only their identity matters. */
module Names {

  datatype Name = Name(text: string)

  // The documented sides, and any other string in their place.
  datatype Side = Buy | Sell | OtherSide(name: Name)
}
