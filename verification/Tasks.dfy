/** The commands that the controller queues for the transmitter and for the receive gate. */
module Tasks {
  type bit = x: int | 0 <= x <= 1

  datatype TxTask =
    | TurnOnTimed(len: int)
    | TurnOn
    | Preamble
    | FrameSynch
    | DataBits(data: seq<bit>)
    | TurnOff

  datatype RxTask =
    | Gate(len: int)
    | Ungate(len: int)
    | Done

  /** A first-in first-out message queue, shared between the block that fills it and the block that empties it. */
  class MsgQueue<T> {
    var items: seq<T>

    constructor ()
      ensures items == []
    {
      items := [];
    }

    /** Append a message. */
    method Handle(msg: T)
      modifies this
      ensures items == old(items) + [msg]
    {
      items := items + [msg];
    }

    /** Remove the oldest message. */
    method DeleteHead() returns (msg: T)
      requires items != []
      modifies this
      ensures [msg] + items == old(items)
    {
      msg := items[0];
      items := items[1..];
    }
  }
}
