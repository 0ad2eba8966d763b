/** Types shared by every component: row identifiers, optional columns, and the outcome of a request. */
module Prelude {
  /** UUIDs are compared, never computed with; their 128-bit value orders like their text. */
  type Id = nat

  /** Calendar dates and timestamps, counted from some fixed origin. */
  type Date = int

  datatype Option<+T> = None | Some(value: T)

  datatype Result<+T, +E> = Ok(value: T) | Err(error: E)

  /** Where a market price came from; the value is in 10^-6. */
  datatype PriceQuote = PriceQuote(source: string, symbol: string, settlementDate: Date, value: int)
}
