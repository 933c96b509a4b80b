/** The telemetry snapshot that TelemetryPublisher builds and OfflineBuffer stores. */
module TelemetryTypes {

  /** A double, with arithmetic over the reals; NonFinite is an infinity or NaN. */
  datatype Number = Finite(r: real) | NonFinite

  datatype TelemetryMsg = TelemetryMsg(
    uin: string,
    speed: Number,
    rpm: Number,
    coolant: Number,
    battery: Number,
    gear: string,
    timestamp: int,
    fromBuffer: bool
  )
}
