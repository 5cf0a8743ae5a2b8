/** The client side of the relay: the connection state machine of
    `PiperClient`. The sockets are reduced to their lifecycle and the
    handshake poll to the moment the first observation arrives. */
module PiperClientModel {
  import opened Wrappers
  import opened Errors

  /** The socket fields: never created, created and open, or closed. */
  datatype Sockets = NoSockets | Open | Closed

  /** `poller.poll(connect_timeout_s * 1000)` reports the observation socket
      readable: the host's first observation arrives (`firstObservationMs`
      after the poll starts) within the timeout. */
  predicate HandshakeSucceeds(connectTimeoutS: nat, firstObservationMs: Option<nat>)
  {
    firstObservationMs.Some? && firstObservationMs.value <= connectTimeoutS * 1000
  }

  class PiperClient {
    const connectTimeoutS: nat
    var connected: bool
    var sockets: Sockets
    /** Socket sets replaced by a later `connect` without being closed. */
    var abandoned: nat

    /** A connected client holds open sockets. */
    ghost predicate Valid()
      reads this
    {
      connected ==> sockets == Open
    }

    constructor (connectTimeoutS: nat)
      ensures Valid()
      ensures this.connectTimeoutS == connectTimeoutS
      ensures !connected && sockets == NoSockets && abandoned == 0
    {
      this.connectTimeoutS := connectTimeoutS;
      connected := false;
      sockets := NoSockets;
      abandoned := 0;
    }

    /** `is_connected` reports the flag, and nothing else. */
    function IsConnected(): (r: bool)
      reads this
      ensures r <==> connected
    {
      connected
    }

    method Connect(firstObservationMs: Option<nat>) returns (r: Outcome<DeviceError>)
      requires Valid()
      modifies this
      ensures Valid()
      ensures old(connected) ==> r == Fail(DeviceAlreadyConnected) && unchanged(this)
      ensures !old(connected) ==> sockets == Open
      ensures !old(connected) ==> abandoned == old(abandoned) + (if old(sockets) == Open then 1 else 0)
      ensures !old(connected) ==>
        (r == Pass <==> HandshakeSucceeds(connectTimeoutS, firstObservationMs))
      ensures !old(connected) ==> (connected <==> r == Pass)
      ensures !old(connected) && r != Pass ==> r == Fail(DeviceNotConnected)
    {
      if connected {
        return Fail(DeviceAlreadyConnected);
      }
      if sockets == Open {
        abandoned := abandoned + 1;
      }
      sockets := Open;
      if !HandshakeSucceeds(connectTimeoutS, firstObservationMs) {
        return Fail(DeviceNotConnected);
      }
      connected := true;
      r := Pass;
    }

    method Disconnect() returns (r: Outcome<DeviceError>)
      requires Valid()
      modifies this
      ensures Valid()
      ensures old(sockets) == NoSockets ==> r == Fail(MissingSockets) && unchanged(this)
      ensures old(sockets) != NoSockets ==> r == Pass && sockets == Closed && !connected
      ensures abandoned == old(abandoned)
    {
      if sockets == NoSockets {
        return Fail(MissingSockets);
      }
      sockets := Closed;
      connected := false;
      r := Pass;
    }
  }

  /** Two `connect` calls without a `disconnect` between them: the second
      fails with DeviceAlreadyConnected whenever the first succeeded. */
  method ConnectTwice(connectTimeoutS: nat, first: Option<nat>, second: Option<nat>)
    returns (r1: Outcome<DeviceError>, r2: Outcome<DeviceError>)
    ensures r1 == Pass <==> HandshakeSucceeds(connectTimeoutS, first)
    ensures r1 == Pass ==> r2 == Fail(DeviceAlreadyConnected)
    ensures r1 != Pass ==> (r2 == Pass <==> HandshakeSucceeds(connectTimeoutS, second))
  {
    var client := new PiperClient(connectTimeoutS);
    r1 := client.Connect(first);
    r2 := client.Connect(second);
  }
}
