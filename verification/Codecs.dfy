/** The 88-byte wire record of an order event: a tag byte, seven bytes of padding, the origin
    timestamp and a 72-byte payload, in the machine's own byte order. */
module Codecs {
  import opened Types

  /** Native byte order is a property of the machine; everything here holds for both. */
  datatype Endian = Little | Big

  type Bytes7 = s: seq<u8> | |s| == 7 witness seq(7, _ => 0)
  type Bytes72 = s: seq<u8> | |s| == 72 witness seq(72, _ => 0)

  datatype PodOrderEvent = PodOrderEvent(tag: u8, pad: Bytes7, originTs: u64, payload: Bytes72)

  datatype Decoded = Ok(event: OrderEvent) | InvalidTag(tag: u8)

  // ---------------------------------------------------------------------------
  // Integers as bytes
  // ---------------------------------------------------------------------------

  function Pow256(k: nat): nat {
    if k == 0 then 1 else 256 * Pow256(k - 1)
  }

  function LittleBytes(n: nat, k: nat): (b: seq<u8>)
    ensures |b| == k
  {
    if k == 0 then [] else [n % 256] + LittleBytes(n / 256, k - 1)
  }

  function LittleValue(b: seq<u8>): nat {
    if b == [] then 0 else b[0] + 256 * LittleValue(b[1..])
  }

  function Reversed(b: seq<u8>): (r: seq<u8>)
    ensures |r| == |b|
    ensures forall i :: 0 <= i < |b| ==> r[i] == b[|b| - 1 - i]
  {
    seq(|b|, i requires 0 <= i < |b| => b[|b| - 1 - i])
  }

  /** `to_ne_bytes` for a `k`-byte integer. */
  function ToNe(e: Endian, n: nat, k: nat): (b: seq<u8>)
    ensures |b| == k
  {
    if e == Little then LittleBytes(n, k) else Reversed(LittleBytes(n, k))
  }

  /** `from_ne_bytes`. */
  function FromNe(e: Endian, b: seq<u8>): nat {
    if e == Little then LittleValue(b) else LittleValue(Reversed(b))
  }

  lemma {:induction false} LittleValueOfBytes(n: nat, k: nat)
    requires n < Pow256(k)
    ensures LittleValue(LittleBytes(n, k)) == n
  {
    if k > 0 {
      LittleValueOfBytes(n / 256, k - 1);
      var b := LittleBytes(n, k);
      assert b[1..] == LittleBytes(n / 256, k - 1);
    }
  }

  lemma {:induction false} LittleBytesOfValue(b: seq<u8>)
    ensures LittleValue(b) < Pow256(|b|)
    ensures LittleBytes(LittleValue(b), |b|) == b
  {
    if b != [] {
      LittleBytesOfValue(b[1..]);
      assert LittleValue(b) % 256 == b[0] && LittleValue(b) / 256 == LittleValue(b[1..]);
      assert b == [b[0]] + b[1..];
    }
  }

  lemma {:induction false} NeRoundTrip(e: Endian, n: nat, k: nat)
    requires n < Pow256(k)
    ensures FromNe(e, ToNe(e, n, k)) == n
  {
    LittleValueOfBytes(n, k);
    assert Reversed(Reversed(LittleBytes(n, k))) == LittleBytes(n, k);
  }

  lemma {:induction false} NeReverseTrip(e: Endian, b: seq<u8>)
    ensures FromNe(e, b) < Pow256(|b|)
    ensures ToNe(e, FromNe(e, b), |b|) == b
  {
    hide LittleBytes, LittleValue, Pow256;
    LittleBytesOfValue(b);
    LittleBytesOfValue(Reversed(b));
    assert Reversed(Reversed(b)) == b;
  }

  lemma Pow256Values()
    ensures Pow256(4) == U32_MAX + 1 && Pow256(8) == U64_MODULUS
  {
  }

  function U64Bytes(e: Endian, n: u64): (b: seq<u8>)
    ensures |b| == 8
  {
    ToNe(e, n, 8)
  }

  function U32Bytes(e: Endian, n: u32): (b: seq<u8>)
    ensures |b| == 4
  {
    ToNe(e, n, 4)
  }

  function ReadU64(e: Endian, b: seq<u8>): (n: u64)
    requires |b| == 8
    ensures U64Bytes(e, n) == b
  {
    NeReverseTrip(e, b);
    Pow256Values();
    FromNe(e, b)
  }

  function ReadU32(e: Endian, b: seq<u8>): (n: u32)
    requires |b| == 4
    ensures U32Bytes(e, n) == b
  {
    NeReverseTrip(e, b);
    Pow256Values();
    FromNe(e, b)
  }

  lemma {:induction false} ReadBack(e: Endian)
    ensures forall n: u64 :: ReadU64(e, U64Bytes(e, n)) == n
    ensures forall n: u32 :: ReadU32(e, U32Bytes(e, n)) == n
  {
    Pow256Values();
    forall n: u64
      ensures ReadU64(e, U64Bytes(e, n)) == n
    {
      NeRoundTrip(e, n, 8);
    }
    forall n: u32
      ensures ReadU32(e, U32Bytes(e, n)) == n
    {
      NeRoundTrip(e, n, 4);
    }
  }

  // ---------------------------------------------------------------------------
  // Enumerations as bytes
  // ---------------------------------------------------------------------------

  function SideByte(s: Side): u8 {
    if s == Bid then 0 else 1
  }

  function TifByte(t: TimeInForce): u8 {
    match t
    case GTC => 0
    case IOC => 1
    case FOK => 2
  }

  function TifOf(b: u8): TimeInForce
    requires b <= 2
  {
    if b == 0 then GTC else if b == 1 then IOC else FOK
  }

  const REASONS: seq<RejectReason> :=
    [InsufficientBalance, InsufficientMargin, PositionLimitExceeded, RateLimitExceeded, InvalidPrice, InvalidQuantity,
     UnknownInstrument, UnknownOrder, SystemAtCapacity, InsufficientLiquidity, DuplicateIntent]

  function ReasonByte(r: RejectReason): (b: u8)
    ensures b < |REASONS| && REASONS[b] == r
  {
    match r
    case InsufficientBalance => 0
    case InsufficientMargin => 1
    case PositionLimitExceeded => 2
    case RateLimitExceeded => 3
    case InvalidPrice => 4
    case InvalidQuantity => 5
    case UnknownInstrument => 6
    case UnknownOrder => 7
    case SystemAtCapacity => 8
    case InsufficientLiquidity => 9
    case DuplicateIntent => 10
  }

  lemma ReasonOfByte(b: u8)
    requires b < |REASONS|
    ensures ReasonByte(REASONS[b]) == b
  {
  }

  // ---------------------------------------------------------------------------
  // The record
  // ---------------------------------------------------------------------------

  function Zeros(n: nat): (z: seq<u8>)
    ensures |z| == n && forall i :: 0 <= i < n ==> z[i] == 0
  {
    seq(n, _ => 0)
  }

  /** The order as it lies in memory. */
  function OrderBytes(e: Endian, o: Order): (b: seq<u8>)
    ensures |b| == 72
  {
    U64Bytes(e, o.orderId) + U64Bytes(e, o.price) + U64Bytes(e, o.quantity) + U64Bytes(e, o.originTs)
    + U32Bytes(e, o.instrumentId) + [SideByte(o.side), 0, TifByte(o.tif), o.padding] + o.intentHash.bytes
  }

  /** The meaningful part of an event's payload; the rest of the 72 bytes is zero. */
  function Body(e: Endian, event: OrderEvent): (b: seq<u8>)
    ensures |b| <= 72
  {
    match event
    case New(order) => OrderBytes(e, order)
    case Fill(id, qty, price, _, hash) => U64Bytes(e, id) + U64Bytes(e, qty) + U64Bytes(e, price) + hash.bytes
    case PartialFill(id, qty, price, remaining, _, hash) =>
      U64Bytes(e, id) + U64Bytes(e, qty) + U64Bytes(e, price) + U64Bytes(e, remaining) + hash.bytes
    case Cancel(id, _, hash) => U64Bytes(e, id) + hash.bytes
    case Reject(id, reason, remaining, _, hash) =>
      U64Bytes(e, id) + hash.bytes + U64Bytes(e, remaining) + [ReasonByte(reason)]
  }

  function TagOf(event: OrderEvent): u8 {
    match event
    case New(_) => 0
    case Fill(_, _, _, _, _) => 1
    case PartialFill(_, _, _, _, _, _) => 2
    case Cancel(_, _, _) => 3
    case Reject(_, _, _, _, _) => 4
  }

  function TimestampOf(event: OrderEvent): u64 {
    if event.New? then event.order.originTs else event.originTs
  }

  function Encoded(e: Endian, event: OrderEvent): PodOrderEvent {
    var body := Body(e, event);
    PodOrderEvent(TagOf(event), Zeros(7), TimestampOf(event), body + Zeros(72 - |body|))
  }

  predicate ValidOrderBytes(p: Bytes72) {
    p[36] <= 1 && p[37] == 0 && p[38] <= 2
  }

  function OrderOf(e: Endian, p: Bytes72): Order
    requires ValidOrderBytes(p)
  {
    Order(ReadU64(e, p[0..8]), ReadU64(e, p[8..16]), ReadU64(e, p[16..24]), ReadU64(e, p[24..32]),
          ReadU32(e, p[32..36]), if p[36] == 0 then Bid else Ask, Limit, TifOf(p[38]), p[39], IntentHash(p[40..72]))
  }

  function Decode(e: Endian, pod: PodOrderEvent): Decoded {
    var p := pod.payload;
    if pod.tag == 0 then
      if ValidOrderBytes(p) then Ok(New(OrderOf(e, p))) else InvalidTag(0)
    else if pod.tag == 1 then
      Ok(Fill(ReadU64(e, p[0..8]), ReadU64(e, p[8..16]), ReadU64(e, p[16..24]), pod.originTs, IntentHash(p[24..56])))
    else if pod.tag == 2 then
      Ok(PartialFill(ReadU64(e, p[0..8]), ReadU64(e, p[8..16]), ReadU64(e, p[16..24]), ReadU64(e, p[24..32]),
                     pod.originTs, IntentHash(p[32..64])))
    else if pod.tag == 3 then
      Ok(Cancel(ReadU64(e, p[0..8]), pod.originTs, IntentHash(p[8..40])))
    else if pod.tag == 4 then
      if p[48] < |REASONS| then
        Ok(Reject(ReadU64(e, p[0..8]), REASONS[p[48]], ReadU64(e, p[40..48]), pod.originTs, IntentHash(p[8..40])))
      else InvalidTag(p[48])
    else InvalidTag(pod.tag)
  }

  // ---------------------------------------------------------------------------
  // The layout, byte by byte
  // ---------------------------------------------------------------------------

  /** The eight bytes of a number are its digits to base 256, lowest first or highest first. */
  lemma {:induction false} U64Digits(e: Endian, n: u64)
    ensures var b: seq<int> := if e == Little then U64Bytes(e, n) else Reversed(U64Bytes(e, n));
            n == b[0] + 0x100 * b[1] + 0x1_0000 * b[2] + 0x100_0000 * b[3] + 0x1_0000_0000 * b[4]
                 + 0x100_0000_0000 * b[5] + 0x1_0000_0000_0000 * b[6] + 0x100_0000_0000_0000 * b[7]
  {
    Pow256Values();
    LittleValueOfBytes(n, 8);
    var b := LittleBytes(n, 8);
    assert Reversed(Reversed(b)) == b;
    assert LittleValue(b) == b[0] + 256 * LittleValue(b[1..]);
    LowHalf(b[1..]);
  }

  lemma {:induction false} LowHalf(b: seq<u8>)
    requires |b| == 7
    ensures var d: seq<int> := b;
            LittleValue(b) == d[0] + 0x100 * d[1] + 0x1_0000 * d[2] + 0x100_0000 * d[3] + 0x1_0000_0000 * d[4]
                              + 0x100_0000_0000 * d[5] + 0x1_0000_0000_0000 * d[6]
  {
    assert b[1..][1..] == b[2..] && b[2..][1..] == b[3..] && b[3..][1..] == b[4..] && b[4..][1..] == b[5..];
    assert b[5..][1..] == b[6..] && b[6..][1..] == [];
    assert LittleValue(b[6..]) == b[6];
    assert LittleValue(b[5..]) == b[5] + 256 * LittleValue(b[6..]);
    assert LittleValue(b[4..]) == b[4] + 256 * LittleValue(b[5..]);
    assert LittleValue(b[3..]) == b[3] + 256 * LittleValue(b[4..]);
    assert LittleValue(b[2..]) == b[2] + 256 * LittleValue(b[3..]);
    assert LittleValue(b[1..]) == b[1] + 256 * LittleValue(b[2..]);
  }

  /** Where each field of a resting order lies. */
  ghost predicate OrderLaidOut(e: Endian, o: Order, p: Bytes72) {
    && p[0..8] == U64Bytes(e, o.orderId) && p[8..16] == U64Bytes(e, o.price)
    && p[16..24] == U64Bytes(e, o.quantity) && p[24..32] == U64Bytes(e, o.originTs)
    && p[32..36] == U32Bytes(e, o.instrumentId)
    && p[36] == (match o.side case Bid => 0 case Ask => 1)
    && p[37] == 0
    && p[38] == (match o.tif case GTC => 0 case IOC => 1 case FOK => 2)
    && p[39] == o.padding && p[40..72] == o.intentHash.bytes
  }

  /** The byte that stands for each reason. */
  ghost predicate IsReasonCode(reason: RejectReason, b: u8) {
    b == match reason
         case InsufficientBalance => 0
         case InsufficientMargin => 1
         case PositionLimitExceeded => 2
         case RateLimitExceeded => 3
         case InvalidPrice => 4
         case InvalidQuantity => 5
         case UnknownInstrument => 6
         case UnknownOrder => 7
         case SystemAtCapacity => 8
         case InsufficientLiquidity => 9
         case DuplicateIntent => 10
  }

  /** Where each field of an event lies, with zeros after them. */
  ghost predicate EventLaidOut(e: Endian, event: OrderEvent, p: Bytes72) {
    match event
    case New(order) => OrderLaidOut(e, order, p)
    case Fill(id, qty, price, ts, hash) =>
      && p[0..8] == U64Bytes(e, id) && p[8..16] == U64Bytes(e, qty) && p[16..24] == U64Bytes(e, price)
      && p[24..56] == hash.bytes && p[56..72] == Zeros(16)
    case PartialFill(id, qty, price, remaining, ts, hash) =>
      && p[0..8] == U64Bytes(e, id) && p[8..16] == U64Bytes(e, qty) && p[16..24] == U64Bytes(e, price)
      && p[24..32] == U64Bytes(e, remaining) && p[32..64] == hash.bytes && p[64..72] == Zeros(8)
    case Cancel(id, ts, hash) =>
      && p[0..8] == U64Bytes(e, id) && p[8..40] == hash.bytes && p[40..72] == Zeros(32)
    case Reject(id, reason, remaining, ts, hash) =>
      && p[0..8] == U64Bytes(e, id) && p[8..40] == hash.bytes && p[40..48] == U64Bytes(e, remaining)
      && IsReasonCode(reason, p[48]) && p[49..72] == Zeros(23)
  }

  /** The wire format: the tag, the padding, the header's timestamp and the offset of every field. */
  lemma {:induction false} EventIsLaidOut(e: Endian, event: OrderEvent)
    ensures var pod := Encoded(e, event);
            && pod.pad == [0, 0, 0, 0, 0, 0, 0]
            && pod.tag == (match event
                           case New(_) => 0
                           case Fill(_, _, _, _, _) => 1
                           case PartialFill(_, _, _, _, _, _) => 2
                           case Cancel(_, _, _) => 3
                           case Reject(_, _, _, _, _) => 4)
            && pod.originTs == (if event.New? then event.order.originTs else event.originTs)
            && EventLaidOut(e, event, pod.payload)
  {
    hide Body, EventLaidOut;
    match event
    case New(order) => NewLaidOut(e, order);
    case Fill(_, _, _, _, _) => FillLaidOut(e, event);
    case PartialFill(_, _, _, _, _, _) => PartialFillLaidOut(e, event);
    case Cancel(_, _, _) => CancelLaidOut(e, event);
    case Reject(_, _, _, _, _) => RejectLaidOut(e, event);
  }

  lemma {:induction false} NewLaidOut(e: Endian, order: Order)
    ensures EventLaidOut(e, New(order), Encoded(e, New(order)).payload)
  {
    hide OrderBytes, OrderLaidOut;
    OrderIsLaidOut(e, order);
    assert Encoded(e, New(order)).payload == OrderBytes(e, order);
  }

  lemma {:induction false} FillLaidOut(e: Endian, event: OrderEvent)
    requires event.Fill?
    ensures EventLaidOut(e, event, Encoded(e, event).payload)
  {
    hide U64Bytes;
    var p := Encoded(e, event).payload;
    assert p[0..8] == U64Bytes(e, event.id) && p[8..16] == U64Bytes(e, event.fillQty);
    assert p[16..24] == U64Bytes(e, event.fillPrice) && p[24..56] == event.intentHash.bytes;
  }

  lemma {:induction false} PartialFillLaidOut(e: Endian, event: OrderEvent)
    requires event.PartialFill?
    ensures EventLaidOut(e, event, Encoded(e, event).payload)
  {
    hide U64Bytes;
    var p := Encoded(e, event).payload;
    assert p[0..8] == U64Bytes(e, event.id) && p[8..16] == U64Bytes(e, event.fillQty);
    assert p[16..24] == U64Bytes(e, event.fillPrice) && p[24..32] == U64Bytes(e, event.remainingQty);
    assert p[32..64] == event.intentHash.bytes;
  }

  lemma {:induction false} CancelLaidOut(e: Endian, event: OrderEvent)
    requires event.Cancel?
    ensures EventLaidOut(e, event, Encoded(e, event).payload)
  {
    hide U64Bytes;
    var p := Encoded(e, event).payload;
    assert p[0..8] == U64Bytes(e, event.id) && p[8..40] == event.intentHash.bytes;
  }

  lemma {:induction false} RejectLaidOut(e: Endian, event: OrderEvent)
    requires event.Reject?
    ensures EventLaidOut(e, event, Encoded(e, event).payload)
  {
    hide U64Bytes;
    var p := Encoded(e, event).payload;
    assert p[0..8] == U64Bytes(e, event.id) && p[8..40] == event.intentHash.bytes;
    assert p[40..48] == U64Bytes(e, event.remainingQty) && p[48] == ReasonByte(event.reason);
  }

  lemma {:induction false} OrderIsLaidOut(e: Endian, order: Order)
    ensures OrderLaidOut(e, order, OrderBytes(e, order))
  {
    hide U64Bytes, U32Bytes;
  }

  // ---------------------------------------------------------------------------
  // Round trips
  // ---------------------------------------------------------------------------

  lemma {:induction false} OrderRoundTrip(e: Endian, o: Order, p: Bytes72)
    requires p == OrderBytes(e, o)
    ensures ValidOrderBytes(p) && OrderOf(e, p) == o
  {
    hide U64Bytes, U32Bytes, ReadU64, ReadU32;
    ReadBack(e);
    assert p[0..8] == U64Bytes(e, o.orderId);
    assert p[8..16] == U64Bytes(e, o.price);
    assert p[16..24] == U64Bytes(e, o.quantity);
    assert p[24..32] == U64Bytes(e, o.originTs);
    assert p[32..36] == U32Bytes(e, o.instrumentId);
    assert p[40..72] == o.intentHash.bytes;
  }

  lemma {:induction false} FillRoundTrip(e: Endian, event: OrderEvent)
    requires event.Fill?
    ensures Decode(e, Encoded(e, event)) == Ok(event)
  {
    hide U64Bytes, ReadU64;
    ReadBack(e);
    var p := Encoded(e, event).payload;
    assert p[0..8] == U64Bytes(e, event.id) && p[8..16] == U64Bytes(e, event.fillQty);
    assert p[16..24] == U64Bytes(e, event.fillPrice) && p[24..56] == event.intentHash.bytes;
  }

  lemma {:induction false} PartialFillRoundTrip(e: Endian, event: OrderEvent)
    requires event.PartialFill?
    ensures Decode(e, Encoded(e, event)) == Ok(event)
  {
    hide U64Bytes, ReadU64;
    ReadBack(e);
    var p := Encoded(e, event).payload;
    assert p[0..8] == U64Bytes(e, event.id) && p[8..16] == U64Bytes(e, event.fillQty);
    assert p[16..24] == U64Bytes(e, event.fillPrice) && p[24..32] == U64Bytes(e, event.remainingQty);
    assert p[32..64] == event.intentHash.bytes;
  }

  lemma {:induction false} CancelRoundTrip(e: Endian, event: OrderEvent)
    requires event.Cancel?
    ensures Decode(e, Encoded(e, event)) == Ok(event)
  {
    hide U64Bytes, ReadU64;
    ReadBack(e);
    var p := Encoded(e, event).payload;
    assert p[0..8] == U64Bytes(e, event.id) && p[8..40] == event.intentHash.bytes;
  }

  lemma {:induction false} RejectRoundTrip(e: Endian, event: OrderEvent)
    requires event.Reject?
    ensures Decode(e, Encoded(e, event)) == Ok(event)
  {
    hide U64Bytes, ReadU64, ReasonByte;
    ReadBack(e);
    var p := Encoded(e, event).payload;
    assert p[0..8] == U64Bytes(e, event.id) && p[8..40] == event.intentHash.bytes;
    assert p[40..48] == U64Bytes(e, event.remainingQty) && p[48] == ReasonByte(event.reason);
  }

  /** Decoding an encoded event gives it back, on machines of either byte order. */
  lemma {:induction false} DecodeEncoded(e: Endian, event: OrderEvent)
    ensures Decode(e, Encoded(e, event)) == Ok(event)
  {
    hide Decode;
    match event
    case New(order) => NewRoundTrip(e, order);
    case Fill(_, _, _, _, _) => FillRoundTrip(e, event);
    case PartialFill(_, _, _, _, _, _) => PartialFillRoundTrip(e, event);
    case Cancel(_, _, _) => CancelRoundTrip(e, event);
    case Reject(_, _, _, _, _) => RejectRoundTrip(e, event);
  }

  lemma {:induction false} NewRoundTrip(e: Endian, order: Order)
    ensures Decode(e, Encoded(e, New(order))) == Ok(New(order))
  {
    hide OrderBytes, OrderOf, ValidOrderBytes;
    var p := Encoded(e, New(order)).payload;
    assert p == OrderBytes(e, order);
    OrderRoundTrip(e, order, p);
  }

  /** Decoding fails exactly on an unknown tag or on a byte outside its enumeration, and names it. */
  lemma DecodeFailsExactly(e: Endian, pod: PodOrderEvent)
    ensures Decode(e, pod).InvalidTag? <==>
            || pod.tag > 4
            || (pod.tag == 0 && (pod.payload[36] > 1 || pod.payload[37] > 0 || pod.payload[38] > 2))
            || (pod.tag == 4 && pod.payload[48] > 10)
    ensures Decode(e, pod).InvalidTag? ==>
              Decode(e, pod).tag == if pod.tag == 4 then pod.payload[48] else pod.tag
  {
  }

  /** How many payload bytes a tag uses. */
  function Used(tag: u8): nat
    requires tag <= 4
  {
    match tag
    case 0 => 72
    case 1 => 56
    case 2 => 64
    case 3 => 40
    case 4 => 49
  }

  lemma {:induction false} OrderBytesOf(e: Endian, p: Bytes72)
    requires ValidOrderBytes(p)
    ensures OrderBytes(e, OrderOf(e, p)) == p
  {
  }

  lemma {:induction false} BodyOfDecoded(e: Endian, pod: PodOrderEvent)
    requires Decode(e, pod).Ok?
    ensures pod.tag <= 4 && TagOf(Decode(e, pod).event) == pod.tag
    ensures Body(e, Decode(e, pod).event) == pod.payload[..Used(pod.tag)]
  {
    hide U64Bytes, U32Bytes, ReadU64, ReadU32, OrderBytes, OrderOf;
    var p := pod.payload;
    if pod.tag == 0 {
      OrderBytesOf(e, p);
      assert p[..72] == p;
    } else if pod.tag == 1 {
      assert p[..56] == p[0..8] + p[8..16] + p[16..24] + p[24..56];
    } else if pod.tag == 2 {
      assert p[..64] == p[0..8] + p[8..16] + p[16..24] + p[24..32] + p[32..64];
    } else if pod.tag == 3 {
      assert p[..40] == p[0..8] + p[8..40];
    } else {
      ReasonOfByte(p[48]);
      assert p[..49] == p[0..8] + p[8..40] + p[40..48] + [p[48]];
    }
  }

  lemma {:induction false} SamePart(p: seq<u8>, q: seq<u8>, n: nat, i: nat, j: nat)
    requires i <= j <= n <= |p| && n <= |q| && p[..n] == q[..n]
    ensures p[i..j] == q[i..j]
  {
    forall k | i <= k < j
      ensures p[k] == q[k]
    {
      assert p[k] == p[..n][k] && q[k] == q[..n][k];
    }
  }

  /** Decoding looks at the tag, at the bytes that tag uses and, except for an order, at the header's
      timestamp. */
  lemma {:induction false} DecodeLooksAt(e: Endian, pod: PodOrderEvent, other: PodOrderEvent)
    requires pod.tag == other.tag <= 4 && pod.payload[..Used(pod.tag)] == other.payload[..Used(pod.tag)]
    requires pod.tag == 0 || pod.originTs == other.originTs
    ensures Decode(e, pod) == Decode(e, other)
  {
    hide ReadU64, ReadU32, OrderOf;
    var p, q, n := pod.payload, other.payload, Used(pod.tag);
    forall i, j | 0 <= i <= j <= n
      ensures p[i..j] == q[i..j]
    {
      SamePart(p, q, n, i, j);
    }
    if pod.tag == 0 {
      assert p == p[..72] && q == q[..72];
    } else if pod.tag == 4 {
      assert p[48] == p[..49][48] && q[48] == q[..49][48];
    }
  }

  /** Decoding inverts the encoder on every record, canonical or not: it gives an event exactly when
      the record has that event's tag, carries that event's bytes where the tag uses any, and, except
      for an order, has its timestamp in the header. */
  lemma {:induction false} DecodeInverts(e: Endian, pod: PodOrderEvent, event: OrderEvent)
    ensures Decode(e, pod) == Ok(event) <==>
            && pod.tag == TagOf(event)
            && pod.payload[..Used(TagOf(event))] == Body(e, event)
            && (event.New? || pod.originTs == event.originTs)
  {
    hide U64Bytes, ReadU64, OrderBytes, OrderOf;
    if Decode(e, pod) == Ok(event) {
      BodyOfDecoded(e, pod);
    }
    hide Decode;
    if && pod.tag == TagOf(event)
       && pod.payload[..Used(TagOf(event))] == Body(e, event)
       && (event.New? || pod.originTs == event.originTs)
    {
      DecodeEncoded(e, event);
      assert Encoded(e, event).payload[..Used(TagOf(event))] == Body(e, event);
      DecodeLooksAt(e, pod, Encoded(e, event));
    }
  }

  /** A record can be decoded exactly when some event has its tag and its bytes; otherwise the error
      names the byte that no event has: the reason of a reject, else the tag. */
  lemma {:induction false} DecodableIffEncodable(e: Endian, pod: PodOrderEvent)
    ensures Decode(e, pod).Ok? <==>
            pod.tag <= 4 && exists event :: TagOf(event) == pod.tag && Body(e, event) == pod.payload[..Used(pod.tag)]
    ensures !Decode(e, pod).Ok? ==>
              Decode(e, pod) == InvalidTag(if pod.tag == 4 then pod.payload[48] else pod.tag)
  {
    DecodeFailsExactly(e, pod);
    hide Decode, Body;
    if Decode(e, pod).Ok? {
      DecodeInverts(e, pod, Decode(e, pod).event);
    }
    if pod.tag <= 4 && exists event :: TagOf(event) == pod.tag && Body(e, event) == pod.payload[..Used(pod.tag)] {
      var event :| TagOf(event) == pod.tag && Body(e, event) == pod.payload[..Used(pod.tag)];
      var stamped := if event.New? then event else event.(originTs := pod.originTs);
      StampIsNotBody(e, event, pod.originTs);
      DecodeInverts(e, pod, stamped);
    }
  }

  lemma StampIsNotBody(e: Endian, event: OrderEvent, ts: u64)
    ensures !event.New? ==> Body(e, event.(originTs := ts)) == Body(e, event) && TagOf(event.(originTs := ts)) == TagOf(event)
  {
  }

  /** Re-encoding a decoded record gives the same record exactly when its padding and unused payload
      are zero and, for a resting order, the header repeats the order's own timestamp. */
  lemma {:induction false} ReencodeIffCanonical(e: Endian, pod: PodOrderEvent)
    requires Decode(e, pod).Ok?
    ensures pod.tag <= 4
    ensures Encoded(e, Decode(e, pod).event) == pod <==>
            && pod.pad == Zeros(7)
            && pod.payload[Used(pod.tag)..] == Zeros(72 - Used(pod.tag))
            && (pod.tag == 0 ==> ReadU64(e, pod.payload[24..32]) == pod.originTs)
  {
    hide ReadU64, ReadU32, Body, OrderBytes, U64Bytes;
    BodyOfDecoded(e, pod);
    var event := Decode(e, pod).event;
    var n := Used(pod.tag);
    assert pod.payload == pod.payload[..n] + pod.payload[n..];
    assert Encoded(e, event).payload[n..] == Zeros(72 - n);
  }

  // ---------------------------------------------------------------------------
  // The encoder, writing slices of a zeroed buffer
  // ---------------------------------------------------------------------------

  method CopyInto(buffer: array<u8>, offset: nat, bytes: seq<u8>)
    requires offset + |bytes| <= buffer.Length
    modifies buffer
    ensures buffer[..] == old(buffer[..offset]) + bytes + old(buffer[offset + |bytes|..])
  {
    for i := 0 to |bytes|
      invariant buffer[..offset] == old(buffer[..offset])
      invariant buffer[offset..offset + i] == bytes[..i]
      invariant buffer[offset + i..] == old(buffer[offset + i..])
    {
      buffer[offset + i] := bytes[i];
    }
    assert buffer[..] == buffer[..offset] + buffer[offset..offset + |bytes|] + buffer[offset + |bytes|..];
  }

  /** Fill a zeroed payload from the front, part after part. */
  method CopyNext(buffer: array<u8>, done: nat, bytes: seq<u8>, ghost prefix: seq<u8>) returns (next: nat)
    requires done + |bytes| <= buffer.Length && |prefix| == done
    requires buffer[..] == prefix + Zeros(buffer.Length - done)
    modifies buffer
    ensures next == done + |bytes|
    ensures buffer[..] == (prefix + bytes) + Zeros(buffer.Length - next)
  {
    next := done + |bytes|;
    CopyInto(buffer, done, bytes);
    assert buffer[..] == prefix + bytes + Zeros(buffer.Length - done)[|bytes|..];
  }

  method Encode(e: Endian, event: OrderEvent) returns (pod: PodOrderEvent)
    ensures pod == Encoded(e, event)
  {
    hide U64Bytes, OrderBytes, ReasonByte;
    var payload := new u8[72](_ => 0);
    assert payload[..] == [] + Zeros(72);
    match event
    case New(order) =>
      var n := CopyNext(payload, 0, OrderBytes(e, order), []);
      assert [] + OrderBytes(e, order) == Body(e, event);
      pod := PodOrderEvent(0, Zeros(7), order.originTs, payload[..]);
    case Fill(id, qty, price, ts, hash) =>
      WriteThree(payload, U64Bytes(e, id), U64Bytes(e, qty), U64Bytes(e, price));
      var n := CopyNext(payload, 24, hash.bytes, U64Bytes(e, id) + U64Bytes(e, qty) + U64Bytes(e, price));
      pod := PodOrderEvent(1, Zeros(7), ts, payload[..]);
    case PartialFill(id, qty, price, remaining, ts, hash) =>
      WriteThree(payload, U64Bytes(e, id), U64Bytes(e, qty), U64Bytes(e, price));
      ghost var written := U64Bytes(e, id) + U64Bytes(e, qty) + U64Bytes(e, price);
      var n := CopyNext(payload, 24, U64Bytes(e, remaining), written);
      n := CopyNext(payload, 32, hash.bytes, written + U64Bytes(e, remaining));
      pod := PodOrderEvent(2, Zeros(7), ts, payload[..]);
    case Cancel(id, ts, hash) =>
      WriteTwo(payload, U64Bytes(e, id), hash.bytes);
      pod := PodOrderEvent(3, Zeros(7), ts, payload[..]);
    case Reject(id, reason, remaining, ts, hash) =>
      WriteThree(payload, U64Bytes(e, id), hash.bytes, U64Bytes(e, remaining));
      var n := CopyNext(payload, 48, [ReasonByte(reason)], U64Bytes(e, id) + hash.bytes + U64Bytes(e, remaining));
      pod := PodOrderEvent(4, Zeros(7), ts, payload[..]);
  }

  method WriteTwo(payload: array<u8>, a: seq<u8>, b: seq<u8>)
    requires payload[..] == Zeros(payload.Length) && |a| + |b| <= payload.Length
    modifies payload
    ensures payload[..] == (a + b) + Zeros(payload.Length - |a| - |b|)
  {
    assert payload[..] == [] + Zeros(payload.Length);
    var n := CopyNext(payload, 0, a, []);
    assert [] + a == a;
    n := CopyNext(payload, n, b, a);
  }

  method WriteThree(payload: array<u8>, a: seq<u8>, b: seq<u8>, c: seq<u8>)
    requires payload[..] == Zeros(payload.Length) && |a| + |b| + |c| <= payload.Length
    modifies payload
    ensures payload[..] == (a + b + c) + Zeros(payload.Length - |a| - |b| - |c|)
  {
    WriteTwo(payload, a, b);
    var n := CopyNext(payload, |a| + |b|, c, a + b);
  }
}
