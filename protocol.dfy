/** What readValue computes from the sensor's replies: how many times it
    polls, whether it gives up, and how it turns a three-byte frame into a
    reading. The driver's loop is proved against these definitions. */
module Protocol {
  import opened Wire
  import Crc8

  /** Milliseconds readValue is prepared to wait, and the pause before each poll. */
  const MaxWait: nat := 100
  const DelayInterval: nat := 10

  /** The number of polls, MaxWait / DelayInterval, written out as a literal
      so that proofs about the loop carry no division. */
  const MaxCounter: nat := 10

  /** The literal is the quotient the driver defines it by. */
  lemma MaxCounterIsQuotient()
    ensures MaxCounter == MaxWait / DelayInterval
  {
  }

  /** A measurement frame: data MSB, data LSB, checksum. */
  const FrameLength: nat := 3

  /** Clears the two status bits at the bottom of a measurement. */
  const StatusMask: bv16 := 0xFFFC

  /** The result of a read, with the error cases the source signals by
      sentinel values given constructors of their own. */
  datatype Reading<T> = TimedOut | BadCrc | Ok(value: T)

  /** A reply gives the three bytes the poll asks for. */
  predicate Complete(reply: seq<bv8>)
  {
    |reply| >= FrameLength
  }

  /** The number of polls made when the k-th is about to start. */
  function PollsFrom(replies: seq<seq<bv8>>, k: nat): (n: nat)
    requires k <= MaxCounter
    ensures k <= n <= MaxCounter
    ensures k < MaxCounter ==> k < n
    ensures n < MaxCounter ==> Complete(ReplyAt(replies, n - 1))
    decreases MaxCounter - k
  {
    if k == MaxCounter then k
    else if Complete(ReplyAt(replies, k)) then k + 1
    else PollsFrom(replies, k + 1)
  }

  /** Every poll from the k-th up to the one before the last is incomplete. */
  lemma {:induction false} PollsFromIncomplete(replies: seq<seq<bv8>>, k: nat, j: nat)
    requires k <= MaxCounter && k <= j < PollsFrom(replies, k) - 1
    ensures !Complete(ReplyAt(replies, j))
    decreases MaxCounter - k
  {
    if k < MaxCounter && !Complete(ReplyAt(replies, k)) && j > k {
      PollsFromIncomplete(replies, k + 1, j);
    }
  }

  /** The number of polls readValue makes: up to and including the first
      complete reply, and never more than MaxCounter. */
  function Polls(replies: seq<seq<bv8>>): (n: nat)
    ensures 1 <= n <= MaxCounter
  {
    PollsFrom(replies, 0)
  }

  /** The 16-bit measurement word of a frame. */
  function RawValue(msb: bv8, lsb: bv8): (raw: bv16)
    ensures (raw >> 8) as bv8 == msb
    ensures (raw & 0xFF) as bv8 == lsb
  {
    (msb as bv16 << 8) | lsb as bv16
  }

  /** A complete frame as readValue judges it: a failed check gives BadCrc,
      otherwise the measurement with its status bits cleared. */
  function DecodeFrame(frame: seq<bv8>): Reading<bv16>
    requires Complete(frame)
  {
    var raw := RawValue(frame[0], frame[1]);
    if Crc8.Crc(raw, frame[2]) != 0 then BadCrc else Ok(raw & StatusMask)
  }

  /** What readValue returns when the sensor answers its polls with `replies`.
      The counter is incremented before the exit test, so a first complete
      reply on the last poll still reads as a timeout. */
  function Outcome(replies: seq<seq<bv8>>): Reading<bv16>
  {
    var n := Polls(replies);
    if n == MaxCounter then TimedOut else DecodeFrame(ReplyAt(replies, n - 1))
  }

  // ---------------------------------------------------------------------------
  // Polling.

  /** The poll count is the position of the first complete reply, counting
      from 1, or MaxCounter when none of the first MaxCounter - 1 is. */
  lemma PollsFirstComplete(replies: seq<seq<bv8>>)
    ensures forall j :: 0 <= j < Polls(replies) - 1 ==> !Complete(ReplyAt(replies, j))
    ensures Polls(replies) < MaxCounter ==> Complete(ReplyAt(replies, Polls(replies) - 1))
  {
    forall j | 0 <= j < Polls(replies) - 1
      ensures !Complete(ReplyAt(replies, j))
    {
      PollsFromIncomplete(replies, 0, j);
    }
  }

  /** readValue times out exactly when none of the first nine polls is
      answered with three bytes. */
  lemma TimeoutIff(replies: seq<seq<bv8>>)
    ensures Outcome(replies) == TimedOut <==>
            forall j :: 0 <= j < MaxCounter - 1 ==> !Complete(ReplyAt(replies, j))
  {
    PollsFirstComplete(replies);
    var n := Polls(replies);
    if n < MaxCounter {
      assert Complete(ReplyAt(replies, n - 1));
    }
  }

  /** The first complete reply coming on the tenth poll is thrown away. */
  lemma LastPollTimesOut(replies: seq<seq<bv8>>)
    requires forall j :: 0 <= j < MaxCounter - 1 ==> !Complete(ReplyAt(replies, j))
    requires Complete(ReplyAt(replies, MaxCounter - 1))
    ensures Outcome(replies) == TimedOut
  {
    TimeoutIff(replies);
  }

  /** When readValue does not time out, it decodes the first complete reply. */
  lemma DecodesFirstComplete(replies: seq<seq<bv8>>, k: nat)
    requires k < MaxCounter - 1 && Complete(ReplyAt(replies, k))
    requires forall j :: 0 <= j < k ==> !Complete(ReplyAt(replies, j))
    ensures Outcome(replies) == DecodeFrame(ReplyAt(replies, k))
  {
    PollsFirstComplete(replies);
  }

  /** The state of readValue's loop once `counter` polls are done: the
      buffer holds what the last poll brought, and the loop has stopped
      early only at the count Polls gives. */
  predicate Polling(replies: seq<seq<bv8>>, counter: nat, toRead: nat, buffer: seq<bv8>)
  {
    && counter <= MaxCounter
    && (counter == 0 ==> toRead == 0)
    && (counter > 0 ==> buffer == Received(ReplyAt(replies, counter - 1), FrameLength) && toRead == |buffer|)
    && (if toRead == FrameLength then Polls(replies) == counter
        else Polls(replies) == PollsFrom(replies, counter))
  }

  /** Before the first poll. */
  lemma PollingStarts(replies: seq<seq<bv8>>, buffer: seq<bv8>)
    ensures Polling(replies, 0, 0, buffer)
  {
  }

  /** One more poll, answered with the next reply of the script. */
  lemma PollingStep(replies: seq<seq<bv8>>, counter: nat, toRead: nat, buffer: seq<bv8>)
    requires Polling(replies, counter, toRead, buffer)
    requires counter < MaxCounter && toRead != FrameLength
    ensures Polling(replies, counter + 1, |Received(ReplyAt(replies, counter), FrameLength)|,
                    Received(ReplyAt(replies, counter), FrameLength))
  {
  }

  /** How readValue's loop leaves things: it has polled Polls(replies)
      times; if the counter ran out the buffer holds what the last poll
      brought, otherwise the first three bytes of the first complete reply. */
  predicate PollingDone(replies: seq<seq<bv8>>, counter: nat, buffer: seq<bv8>)
  {
    && counter == Polls(replies)
    && (counter == MaxCounter ==> buffer == Received(ReplyAt(replies, MaxCounter - 1), FrameLength))
    && (counter < MaxCounter ==>
          && Complete(ReplyAt(replies, counter - 1))
          && buffer == ReplyAt(replies, counter - 1)[..FrameLength])
  }

  /** When the loop condition fails, the loop is done in that sense. */
  lemma PollingEnds(replies: seq<seq<bv8>>, counter: nat, toRead: nat, buffer: seq<bv8>)
    requires Polling(replies, counter, toRead, buffer)
    requires !(counter < MaxCounter && toRead != FrameLength)
    ensures PollingDone(replies, counter, buffer)
  {
  }

  // ---------------------------------------------------------------------------
  // Frames.

  /** Only the first three bytes of a reply are decoded. */
  lemma DecodeFramePrefix(reply: seq<bv8>)
    requires Complete(reply)
    ensures DecodeFrame(reply[..FrameLength]) == DecodeFrame(reply)
  {
    var frame := reply[..FrameLength];
    assert frame[0] == reply[0] && frame[1] == reply[1] && frame[2] == reply[2];
  }

  /** A frame is rejected exactly when its checksum does not match its data. */
  lemma BadCrcIff(frame: seq<bv8>)
    requires Complete(frame)
    ensures DecodeFrame(frame) == BadCrc <==> Crc8.Crc(RawValue(frame[0], frame[1]), frame[2]) != 0
    ensures DecodeFrame(frame) != TimedOut
  {
  }

  /** Every value readValue returns has its two status bits clear, so it is
      at most 0xFFFC. */
  lemma OkValueShape(replies: seq<seq<bv8>>)
    requires Outcome(replies).Ok?
    ensures Outcome(replies).value & 3 == 0
    ensures Outcome(replies).value <= 0xFFFC
  {
  }

  /** The frame a working sensor sends for a measurement: data MSB, data LSB,
      and the check value that makes the division leave nothing. */
  function SensorFrame(measurement: bv16): (frame: seq<bv8>)
    ensures Complete(frame) && RawValue(frame[0], frame[1]) == measurement
  {
    [(measurement >> 8) as bv8, (measurement & 0xFF) as bv8, Crc8.Crc(measurement, 0)]
  }

  lemma RawValueOfBytes(measurement: bv16)
    ensures RawValue((measurement >> 8) as bv8, (measurement & 0xFF) as bv8) == measurement
  {
  }

  /** A frame from a working sensor decodes to its measurement, status bits cleared. */
  lemma DecodeSensorFrame(measurement: bv16)
    ensures DecodeFrame(SensorFrame(measurement)) == Ok(measurement & StatusMask)
  {
    Crc8.CheckValueAccepted(measurement);
  }

  /** Any other checksum byte on the same data is rejected. */
  lemma DecodeWrongChecksum(measurement: bv16, checksum: bv8)
    requires checksum != Crc8.Crc(measurement, 0)
    ensures DecodeFrame([(measurement >> 8) as bv8, (measurement & 0xFF) as bv8, checksum]) == BadCrc
  {
    RawValueOfBytes(measurement);
    Crc8.UniqueCheckValue(measurement, checksum);
  }

  /** One datasheet vector, answered on the first poll. */
  lemma DatasheetReading()
    ensures Outcome([[0x4E, 0x85, 0x6B]]) == Ok(0x4E84)
  {
    var frame: seq<bv8> := [0x4E, 0x85, 0x6B];
    assert ReplyAt([frame], 0) == frame;
    assert Polls([frame]) == 1;
    assert RawValue(0x4E, 0x85) == 0x4E85;
    Crc8.DatasheetVectorC();
  }

  /** The same frame, first answered on the tenth poll, is reported as a timeout. */
  lemma DatasheetReadingOnTenthPoll()
    ensures Outcome(seq(9, _ => []) + [[0x4E, 0x85, 0x6B]]) == TimedOut
  {
    var replies: seq<seq<bv8>> := seq(9, _ => []) + [[0x4E, 0x85, 0x6B]];
    forall j | 0 <= j < MaxCounter - 1
      ensures !Complete(ReplyAt(replies, j))
    {
      assert replies[j] == [];
    }
    TimeoutIff(replies);
  }

  // ---------------------------------------------------------------------------
  // The sentinel codes readHumidity and readTemperature pass on.

  /** The 16-bit word readValue returns: 998 on timeout, 999 on a bad check,
      the measurement otherwise. */
  function Encode(r: Reading<bv16>): bv16
  {
    match r
    case TimedOut => 998
    case BadCrc => 999
    case Ok(v) => v
  }

  /** The test readHumidity and readTemperature apply to that word. */
  function DecodeWord(w: bv16): Reading<bv16>
  {
    if w == 998 then TimedOut else if w == 999 then BadCrc else Ok(w)
  }

  /** The sentinels cannot be mistaken for a measurement: both have a status
      bit set, which readValue always clears. */
  lemma SentinelsUnambiguous(replies: seq<seq<bv8>>)
    ensures DecodeWord(Encode(Outcome(replies))) == Outcome(replies)
  {
    var r := Outcome(replies);
    if r.Ok? {
      OkValueShape(replies);
      assert r.value != 998 && r.value != 999;
    }
  }
}
