/** The HTU21D driver object: it holds the port it was assigned and talks to
    the sensor through it. Each method is proved against the definitions of
    Protocol, UserRegister and Crc8, and states the whole new state of the
    port. */
module Htu21dDriver {
  import opened Wire
  import opened Protocol
  import Crc8
  import UserRegister
  import Conversion

  /** A reading turned into physical units, errors passed through. */
  function Convert(r: Reading<bv16>, f: nat -> real): (c: Reading<real>)
    ensures c.TimedOut? == r.TimedOut? && c.BadCrc? == r.BadCrc?
    ensures r.Ok? ==> c == Ok(f(r.value as nat))
  {
    match r
    case TimedOut => TimedOut
    case BadCrc => BadCrc
    case Ok(v) => Ok(f(v as nat))
  }

  class Htu21d {
    var port: Port

    /** The object together with assign(): the port it will use. */
    constructor(wirePort: Port)
      ensures port == wirePort
    {
      port := wirePort;
    }

    /** assign: switch to another port. */
    method Assign(wirePort: Port)
      modifies this
      ensures port == wirePort
    {
      port := wirePort;
    }

    /** readValue: send the measurement command, poll until a request brings
        three bytes or the counter runs out, then check and decode them. */
    method ReadValue(kind: Measurement) returns (r: Reading<bv16>)
      modifies port
      ensures r == Outcome(old(port.Pending()))
      ensures port.replies == old(port.replies)
      ensures port.polled == old(port.polled) + Polls(old(port.Pending()))
      ensures port.sent == old(port.sent) + [TriggerMeasurement(kind)]
      ensures port.userRegister == old(port.userRegister)
      ensures r.TimedOut? ==> port.buffer == Received(ReplyAt(old(port.Pending()), MaxCounter - 1), FrameLength)
      ensures !r.TimedOut? ==> port.buffer == []
    {
      ghost var script := port.Pending();
      port.Transmit(TriggerMeasurement(kind));
      var counter := Poll();
      if counter == MaxCounter {
        return TimedOut;
      }
      ghost var reply := ReplyAt(script, counter - 1);
      assert Outcome(script) == DecodeFrame(reply);
      DecodeFramePrefix(reply);
      r := ReadFrame();
    }

    /** The loop of readValue: request three bytes every DelayInterval
        milliseconds until they come or MaxCounter polls are done. */
    method Poll() returns (counter: nat)
      requires !port.AwaitingRegister()
      modifies port
      ensures PollingDone(Drop(old(port.replies), old(port.polled)), counter, port.buffer)
      ensures port.replies == old(port.replies) && port.polled == old(port.polled) + counter
      ensures port.sent == old(port.sent) && port.userRegister == old(port.userRegister)
    {
      ghost var start := port.polled;
      ghost var script := Drop(port.replies, start);
      counter := 0;
      var toRead: nat := 0;
      PollingStarts(script, port.buffer);
      while counter < MaxCounter && toRead != FrameLength
        invariant Polling(script, counter, toRead, port.buffer)
        invariant port.replies == old(port.replies) && port.polled == start + counter
        invariant port.sent == old(port.sent) && port.userRegister == old(port.userRegister)
        invariant !port.AwaitingRegister()
        decreases MaxCounter - counter
      {
        // delay(DelayInterval) happens here; time is not modelled.
        DropReplyAt(port.replies, start, counter);
        PollingStep(script, counter, toRead, port.buffer);
        toRead := port.RequestFrom(FrameLength);
        counter := counter + 1;
      }
      PollingEnds(script, counter, toRead, port.buffer);
    }

    /** The end of readValue: read the buffered frame, check it, and clear
        the status bits of the measurement. */
    method ReadFrame() returns (r: Reading<bv16>)
      requires Complete(port.buffer)
      modifies port
      ensures r == DecodeFrame(old(port.buffer))
      ensures port.buffer == old(port.buffer)[FrameLength..]
      ensures port.replies == old(port.replies) && port.polled == old(port.polled)
      ensures port.sent == old(port.sent) && port.userRegister == old(port.userRegister)
    {
      ghost var frame := port.buffer;
      var msb := port.Read();
      var lsb := port.Read();
      var checksum := port.Read();
      assert msb == frame[0] && lsb == frame[1] && checksum == frame[2];
      var rawValue := RawValue(msb, lsb);
      var crc := Crc8.CheckCrc(rawValue, checksum);
      if crc != 0 {
        return BadCrc;
      }
      return Ok(rawValue & StatusMask);
    }

    /** readHumidity: a humidity measurement in percent. */
    method ReadHumidity() returns (r: Reading<real>)
      modifies port
      ensures r == Convert(Outcome(old(port.Pending())), Conversion.RelativeHumidity)
      ensures port.replies == old(port.replies)
      ensures port.polled == old(port.polled) + Polls(old(port.Pending()))
      ensures port.sent == old(port.sent) + [TriggerMeasurement(Humidity)]
      ensures port.userRegister == old(port.userRegister)
      ensures r.TimedOut? ==> port.buffer == Received(ReplyAt(old(port.Pending()), MaxCounter - 1), FrameLength)
      ensures !r.TimedOut? ==> port.buffer == []
    {
      var raw := ReadValue(Humidity);
      if raw.TimedOut? || raw.BadCrc? {
        return if raw.TimedOut? then TimedOut else BadCrc;
      }
      r := Ok(Conversion.RelativeHumidity(raw.value as nat));
    }

    /** readTemperature: a temperature measurement in degrees Celsius. */
    method ReadTemperature() returns (r: Reading<real>)
      modifies port
      ensures r == Convert(Outcome(old(port.Pending())), Conversion.Temperature)
      ensures port.replies == old(port.replies)
      ensures port.polled == old(port.polled) + Polls(old(port.Pending()))
      ensures port.sent == old(port.sent) + [TriggerMeasurement(Temperature)]
      ensures port.userRegister == old(port.userRegister)
      ensures r.TimedOut? ==> port.buffer == Received(ReplyAt(old(port.Pending()), MaxCounter - 1), FrameLength)
      ensures !r.TimedOut? ==> port.buffer == []
    {
      var raw := ReadValue(Temperature);
      if raw.TimedOut? || raw.BadCrc? {
        return if raw.TimedOut? then TimedOut else BadCrc;
      }
      r := Ok(Conversion.Temperature(raw.value as nat));
    }

    /** readUserRegister: ask for the register and read the one byte it sends. */
    method ReadUserRegister() returns (userRegister: bv8)
      modifies port
      ensures userRegister == old(port.userRegister)
      ensures port.sent == old(port.sent) + [Command.ReadUserRegister]
      ensures port.userRegister == old(port.userRegister)
      ensures port.replies == old(port.replies) && port.polled == old(port.polled) && port.buffer == []
    {
      port.Transmit(Command.ReadUserRegister);
      var _ := port.RequestFrom(1);
      userRegister := port.Read();
    }

    /** writeUserRegister: one transmission carrying the new value. */
    method WriteUserRegister(val: bv8)
      modifies port
      ensures port.userRegister == val
      ensures port.sent == old(port.sent) + [Command.WriteUserRegister(val)]
      ensures port.replies == old(port.replies) && port.polled == old(port.polled)
      ensures port.buffer == old(port.buffer)
    {
      port.Transmit(Command.WriteUserRegister(val));
    }

    /** setResolution: read the register, replace bits 7 and 0 by those of
        the argument, write it back. */
    method SetResolution(resolution: bv8)
      modifies port
      ensures port.userRegister == UserRegister.WithResolution(old(port.userRegister), resolution)
      ensures port.sent == old(port.sent) +
                [Command.ReadUserRegister, Command.WriteUserRegister(UserRegister.WithResolution(old(port.userRegister), resolution))]
      ensures port.replies == old(port.replies) && port.polled == old(port.polled) && port.buffer == []
    {
      var userRegister := ReadUserRegister();
      userRegister := userRegister & UserRegister.KeepMask;
      var bits := resolution & UserRegister.ResolutionMask;
      userRegister := userRegister | bits;
      WriteUserRegister(userRegister);
    }
  }
}
