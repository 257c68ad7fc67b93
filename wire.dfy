/** A scripted stand-in for the I2C port the HTU21D driver talks through.
    The port remembers every transmission, holds the sensor's user register,
    answers measurement polls from a script of replies, and keeps the bytes of
    the last request in a receive buffer until the driver reads them. */
module Wire {

  /** The two quantities the sensor measures. */
  datatype Measurement = Humidity | Temperature

  /** What one transmission (beginTransmission, write, endTransmission) sends.
      The command byte values are symbolic: only their meaning is modelled. */
  datatype Command =
    | TriggerMeasurement(kind: Measurement)
    | ReadUserRegister
    | WriteUserRegister(value: bv8)

  /** The bytes of a reply that reach the receive buffer when `quantity`
      bytes are requested: a prefix of the reply, never longer than asked. */
  function Received(reply: seq<bv8>, quantity: nat): (r: seq<bv8>)
    ensures r <= reply
    ensures |r| <= quantity
    ensures |r| == quantity || r == reply
  {
    if |reply| <= quantity then reply else reply[..quantity]
  }

  /** The reply to the k-th measurement poll (counting from 0); a sensor
      that has nothing more to say answers with no bytes. */
  function ReplyAt(replies: seq<seq<bv8>>, k: nat): seq<bv8>
  {
    if k < |replies| then replies[k] else []
  }

  /** The script once its first k replies have been used. */
  function Drop(replies: seq<seq<bv8>>, k: nat): seq<seq<bv8>>
  {
    if k <= |replies| then replies[k..] else []
  }

  /** Reply j of the rest of the script is reply k + j of the whole. */
  lemma DropReplyAt(replies: seq<seq<bv8>>, k: nat, j: nat)
    ensures ReplyAt(Drop(replies, k), j) == ReplyAt(replies, k + j)
  {
  }

  class Port {
    /** What the sensor answers to successive measurement polls. */
    var replies: seq<seq<bv8>>
    /** How many of those replies have been used. */
    var polled: nat
    /** The sensor's user register. */
    var userRegister: bv8
    /** Bytes received by the last request and not yet read. */
    var buffer: seq<bv8>
    /** Every transmission so far, oldest first. */
    var sent: seq<Command>

    constructor(replies: seq<seq<bv8>>, userRegister: bv8)
      ensures this.replies == replies && polled == 0 && this.userRegister == userRegister
      ensures buffer == [] && sent == []
    {
      this.replies := replies;
      polled := 0;
      this.userRegister := userRegister;
      buffer := [];
      sent := [];
    }

    /** The replies the next polls will get. */
    function Pending(): seq<seq<bv8>>
      reads this
    {
      Drop(replies, polled)
    }

    /** The last transmission asked for the user register. */
    predicate AwaitingRegister()
      reads this
    {
      |sent| > 0 && sent[|sent| - 1] == ReadUserRegister
    }

    /** One transmission; a register write takes effect at once. */
    method Transmit(c: Command)
      modifies this
      ensures sent == old(sent) + [c]
      ensures userRegister == if c.WriteUserRegister? then c.value else old(userRegister)
      ensures replies == old(replies) && polled == old(polled) && buffer == old(buffer)
    {
      sent := sent + [c];
      if c.WriteUserRegister? {
        userRegister := c.value;
      }
    }

    /** requestFrom: after a register read command the sensor answers with
        the register, otherwise with its next scripted reply. The buffer is
        replaced by what arrived; the count of its bytes is returned. */
    method RequestFrom(quantity: nat) returns (count: nat)
      modifies this
      ensures old(AwaitingRegister()) ==>
                buffer == Received([old(userRegister)], quantity) && polled == old(polled)
      ensures !old(AwaitingRegister()) ==>
                buffer == Received(ReplyAt(old(replies), old(polled)), quantity) && polled == old(polled) + 1
      ensures count == |buffer|
      ensures replies == old(replies) && sent == old(sent) && userRegister == old(userRegister)
    {
      if AwaitingRegister() {
        buffer := Received([userRegister], quantity);
      } else {
        buffer := Received(ReplyAt(replies, polled), quantity);
        polled := polled + 1;
      }
      count := |buffer|;
    }

    /** read: the next buffered byte, or 0xFF (the -1 of an empty buffer,
        cast to a byte) when nothing is left. */
    method Read() returns (b: bv8)
      modifies this
      ensures old(buffer) == [] ==> b == 0xFF && buffer == []
      ensures old(buffer) != [] ==> b == old(buffer)[0] && buffer == old(buffer)[1..]
      ensures replies == old(replies) && polled == old(polled)
      ensures userRegister == old(userRegister) && sent == old(sent)
    {
      if buffer == [] {
        b := 0xFF;
      } else {
        b := buffer[0];
        buffer := buffer[1..];
      }
    }
  }
}
