/** Foundational domain types of the trading data plane, with the machine widths
    written out as subset types. */
module Types {

  const U64_MODULUS: int := 0x1_0000_0000_0000_0000
  const U32_MAX: int := 0xFFFF_FFFF

  type u8 = x: int | 0 <= x < 0x100
  type u32 = x: int | 0 <= x <= U32_MAX
  type u64 = x: int | 0 <= x < U64_MODULUS

  function Mod64(x: int): u64 {
    x % U64_MODULUS
  }

  /** Unchecked u64 addition and subtraction: release builds wrap around. */
  function WrapAdd(a: u64, b: u64): u64 {
    Mod64(a + b)
  }

  function WrapSub(a: u64, b: u64): u64 {
    Mod64(a - b)
  }

  /** A wrapping accumulator holds the true sum modulo 2^64. */
  lemma WrapAddOfSum(sum: int, x: u64)
    ensures WrapAdd(Mod64(sum), x) == Mod64(sum + x)
  {
  }

  lemma WrapSubOfSum(sum: int, x: u64)
    ensures WrapSub(Mod64(sum), x) == Mod64(sum - x)
  {
  }

  /** Wrapping one addend down wraps the sum down. */
  lemma WrapSubInSum(rest: int, q: u64, x: u64)
    ensures Mod64(rest + WrapSub(q, x)) == Mod64(rest + q - x)
  {
  }

  datatype Option<+T> = None | Some(value: T)

  datatype Side = Bid | Ask
  datatype OrderType = Limit
  datatype TimeInForce = GTC | IOC | FOK
  datatype RequestType = NewOrder | CancelOrder | AmendOrder

  datatype RejectReason =
    | InsufficientBalance
    | InsufficientMargin
    | PositionLimitExceeded
    | RateLimitExceeded
    | InvalidPrice
    | InvalidQuantity
    | UnknownInstrument
    | UnknownOrder
    | SystemAtCapacity
    | InsufficientLiquidity
    | DuplicateIntent

  type Bytes32 = s: seq<u8> | |s| == 32 witness seq(32, _ => 0)

  datatype IntentHash = IntentHash(bytes: Bytes32)

  datatype Order = Order(
    orderId: u64,
    price: u64,
    quantity: u64,
    originTs: u64,
    instrumentId: u32,
    side: Side,
    orderType: OrderType,
    tif: TimeInForce,
    padding: u8,
    intentHash: IntentHash)

  datatype OrderRequest = OrderRequest(
    price: u64,
    quantity: u64,
    originTs: u64,
    instrumentId: u32,
    side: Side,
    orderType: OrderType,
    tif: TimeInForce,
    requestType: RequestType,
    intentHash: IntentHash)

  datatype OrderEvent =
    | New(order: Order)
    | Fill(id: u64, fillQty: u64, fillPrice: u64, originTs: u64, intentHash: IntentHash)
    | PartialFill(id: u64, fillQty: u64, fillPrice: u64, remainingQty: u64, originTs: u64, intentHash: IntentHash)
    | Cancel(id: u64, originTs: u64, intentHash: IntentHash)
    | Reject(id: u64, reason: RejectReason, remainingQty: u64, originTs: u64, intentHash: IntentHash)
}
