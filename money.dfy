/** Monetary values of tenders, lots and bids. Amounts are whole numbers of the smallest unit. */
module Money {

  type Currency = string

  /** The currency a guarantee gets when a request does not name one. */
  const DefaultCurrency: Currency := "UAH"

  /** A price: `value` of a tender, of a lot, or of a bid's entry for a lot; also `minimalStep`. */
  datatype Value = Value(amount: nat, currency: Currency, vatIncluded: bool)

  /** A deposit that a tender or a lot asks of its bidders. */
  datatype Guarantee = Guarantee(amount: nat, currency: Currency)
}
