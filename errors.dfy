/** The device errors that connecting and disconnecting raise. */
module Errors {
  datatype DeviceError =
    | DeviceAlreadyConnected
    | DeviceNotConnected
    | MissingSockets  // AttributeError: `disconnect` before any `connect`
}
