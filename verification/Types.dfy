/** The value types of the matching engine (types.hpp, order.hpp, trade.hpp). */
module Types {

  datatype Side = Buy | Sell {
    function Opposite(): Side {
      if Buy? then Sell else Buy
    }
  }

  /** A resting order; `quantity` is what is still unfilled. */
  datatype Order = Order(id: nat, price: int, quantity: int, sequence: nat)

  /** One execution of an incoming order against a resting one. */
  datatype Trade = Trade(aggressorId: nat, restingId: nat, aggressorSide: Side,
                         price: int, quantity: int, sequence: nat)

  /** A price with the total quantity at that price (price_scan.hpp). */
  datatype PriceQuantity = PriceQuantity(price: int, quantity: int)

  datatype Option<+T> = None | Some(value: T)

  datatype Result<+T, +E> = Success(value: T) | Failure(error: E)

  function Min(a: int, b: int): int {
    if a < b then a else b
  }
}
