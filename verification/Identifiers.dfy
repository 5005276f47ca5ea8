// Row identifiers. Products are compared by identifier when they are sorted, so every
// identifier is a number; nothing else is assumed about them.
module Identifiers {
  type CustomerId = int
  type StoreId = int
  type ProductId = int
  type CartId = int
  type AddressId = int
}
