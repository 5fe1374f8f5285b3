/** Send and receive windows under Receive Maximum (src/state/flow_control.rs). */
module FlowControls {
  import opened Prelude

  datatype FlowControlError = ReceiveMaximumExceeded | InvalidReceiveMaximum | InvalidQoS | InvalidPacketId

  const DEFAULT_MAXIMUM := 65535

  /** The two windows: what the peer accepts from us, and what we accept from the peer. */
  datatype Window = Window(
    receiveMaximum: u16,
    outstanding: u16,
    initialized: bool,
    ownReceiveMaximum: u16,
    incoming: u16)
  {
    predicate CanSend() {
      outstanding < receiveMaximum
    }

    predicate CanReceive() {
      incoming < ownReceiveMaximum
    }

    function PublishSent(): Window
      requires CanSend()
    {
      this.(outstanding := outstanding + 1)
    }

    function PublishAcked(): Window {
      this.(outstanding := Decremented(outstanding))
    }

    function PublishReceived(): Window
      requires CanReceive()
    {
      this.(incoming := incoming + 1)
    }

    function AckSent(): Window {
      this.(incoming := Decremented(incoming))
    }

    function Reset(keepOwn: bool): Window {
      Fresh().(ownReceiveMaximum := if keepOwn then ownReceiveMaximum else DEFAULT_MAXIMUM)
    }

    static function Fresh(): Window {
      Window(DEFAULT_MAXIMUM, 0, false, DEFAULT_MAXIMUM, 0)
    }
  }

  class FlowControl {
    var receiveMaximum: u16
    var outstandingCount: u16
    var initialized: bool
    var ownReceiveMaximum: u16
    var incomingCount: u16

    ghost function State(): Window
      reads this
    {
      Window(receiveMaximum, outstandingCount, initialized, ownReceiveMaximum, incomingCount)
    }

    constructor ()
      ensures State() == Window.Fresh()
    {
      receiveMaximum, outstandingCount, initialized := DEFAULT_MAXIMUM, 0, false;
      ownReceiveMaximum, incomingCount := DEFAULT_MAXIMUM, 0;
    }

    method SetReceiveMaximum(max: u16) returns (r: Result<(), FlowControlError>)
      modifies this
      ensures max == 0 ==> r == Err(InvalidReceiveMaximum) && State() == old(State())
      ensures max != 0 ==> r.Ok? && State() == old(State()).(receiveMaximum := max, initialized := true)
    {
      if max == 0 {
        return Err(InvalidReceiveMaximum);
      }
      receiveMaximum, initialized := max, true;
      return Ok(());
    }

    method SetOwnReceiveMaximum(max: u16) returns (r: Result<(), FlowControlError>)
      modifies this
      ensures max == 0 ==> r == Err(InvalidReceiveMaximum) && State() == old(State())
      ensures max != 0 ==> r.Ok? && State() == old(State()).(ownReceiveMaximum := max)
    {
      if max == 0 {
        return Err(InvalidReceiveMaximum);
      }
      ownReceiveMaximum := max;
      return Ok(());
    }

    method PublishSent() returns (r: Result<(), FlowControlError>)
      modifies this
      ensures old(State()).CanSend() ==> r.Ok? && State() == old(State()).PublishSent()
      ensures !old(State()).CanSend() ==> r == Err(ReceiveMaximumExceeded) && State() == old(State())
    {
      if outstandingCount >= receiveMaximum {
        return Err(ReceiveMaximumExceeded);
      }
      outstandingCount := outstandingCount + 1;  // below the maximum, so the saturating addition is exact
      return Ok(());
    }

    method PublishAcked()
      modifies this
      ensures State() == old(State()).PublishAcked()
    {
      outstandingCount := Decremented(outstandingCount);
    }

    method PublishReceived() returns (r: Result<(), FlowControlError>)
      modifies this
      ensures old(State()).CanReceive() ==> r.Ok? && State() == old(State()).PublishReceived()
      ensures !old(State()).CanReceive() ==> r == Err(ReceiveMaximumExceeded) && State() == old(State())
    {
      if incomingCount >= ownReceiveMaximum {
        return Err(ReceiveMaximumExceeded);
      }
      incomingCount := incomingCount + 1;
      return Ok(());
    }

    method PublishAckSent()
      modifies this
      ensures State() == old(State()).AckSent()
    {
      incomingCount := Decremented(incomingCount);
    }

    method Reset(keepOwnReceiveMaximum: bool)
      modifies this
      ensures State() == old(State()).Reset(keepOwnReceiveMaximum)
    {
      var own := if keepOwnReceiveMaximum then ownReceiveMaximum else DEFAULT_MAXIMUM;
      receiveMaximum, outstandingCount, initialized := DEFAULT_MAXIMUM, 0, false;
      ownReceiveMaximum, incomingCount := own, 0;
    }
  }
}
