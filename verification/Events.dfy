/** The telemetry event and the ranges of its numbers. */
module Events {

  /** The largest finite float64, which the order book returns when no ask is left. */
  const MAX_FLOAT64: real := 179769313486231570814527423731704356798070567525844996598917476803157260780028538760589558632766878171540458953514382464234321326889464182768467546703537516986049910576551282076245490090389328944075868508455133942304583236903222948165808559332123347764797926204144723168738177180919299881250404026184124858368.0

  /** A finite float64, with exact arithmetic instead of rounding. */
  type Float = x: real | -MAX_FLOAT64 <= x <= MAX_FLOAT64

  datatype Event = Event(
    sessionId: string,
    orderId: string,
    eventType: string,
    tSendNs: int,
    tAckNs: int,
    latencyNs: int,
    side: string,
    orderType: string,
    price: Float,
    qty: Float,
    fillPrice: Float,
    fillQty: Float,
    seqNo: int,
    violation: bool)
}
