/** Fixed-width numbers, wire values and arena records shared by every component. */
module Types {

  const TWO32: nat := 0x1_0000_0000
  const TWO24: nat := 0x100_0000

  type u8 = x: nat | x < 0x100
  type u16 = x: nat | x < 0x1_0000
  type u32 = x: nat | x < 0x1_0000_0000
  type u64 = x: nat | x < 0x1_0000_0000_0000_0000
  type i64 = x: int | -0x8000_0000_0000_0000 <= x < 0x8000_0000_0000_0000

  /** The null index of links and cached best levels: UINT32_MAX. */
  const NULL_IDX: u32 := 0xFFFF_FFFF

  /** The side field is a raw byte: 0 is BUY and every other value is handled as SELL. */
  datatype Side = Buy | Sell

  function SideOf(b: u8): Side {
    if b == 0 then Buy else Sell
  }

  function Opposite(s: Side): Side {
    if s == Buy then Sell else Buy
  }

  const TIF_IOC: u8 := 1

  /** A new-order message; `session` is the header's session id, stamped by the gateway. */
  datatype NewOrder = NewOrder(id: u64, price: i64, qty: u32, symbol: u16, side: u8, tif: u8, session: u32)

  /** An execution report; `session` addresses it to one client. */
  datatype Fill = Fill(aggressorId: u64, restingId: u64, price: i64, qty: u32, session: u32)

  /** One arena slot: the order and its intrusive list links. */
  datatype Order = Order(id: u64, price: i64, qty: u32, symbol: u16, side: u8, tif: u8, next: u32, prev: u32)

  /** One rung of a price ladder, stored by value in the ladder's array. */
  datatype PriceLevel = PriceLevel(head: u32, tail: u32, count: u32, total: u32)

  const EMPTY_LEVEL: PriceLevel := PriceLevel(NULL_IDX, NULL_IDX, 0, 0)

  datatype Option<+T> = None | Some(value: T)

  /** Slot and generation of a resting order. */
  datatype Handle = Handle(slot: nat, gen: u32)
}
