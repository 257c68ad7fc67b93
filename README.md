# HTU21D humidity and temperature sensor driver, modelled in Dafny

This project models the SparkFun HTU21D driver that the GreenMcp Particle
firmware uses. It covers the driver object and its I2C port, the
measurement poll-and-fetch protocol of `readValue`, the CRC-8 check of
`checkCRC`, and the read-modify-write of the user register in
`setResolution`. It also covers the humidity and temperature formulas that
`readHumidity` and `readTemperature` apply.

The files are:

- `wire.dfy` (module `Wire`): a scripted stand-in for the `TwoWire` port.
  - Class `Port` models the port; `Transmit`, `RequestFrom` and `Read` are its operations.
  - Measurement polls are answered from a fixed sequence of replies, one per poll; the cursor `polled` counts the replies used. A reply shorter than three bytes is a poll that found no result yet.
  - The sensor's user register is a `bv8` field of the port. It answers a register read, and a register write changes it.
  - Every transmission is logged as a symbolic `Command` in `sent`.
- `crc8.dfy` (module `Crc8`): the CRC-8 check.
  - The reference definition `Crc` is MSB-first long division of the 24-bit word `message << 8 | checkValue` by x^8 + x^5 + x^4 + 1, one `Step` per bit position from 23 down to 8.
  - `CheckCrc` is the source's loop, proved equal to `Crc`.
  - The properties proved about `Crc`:
    - it is linear over GF(2);
    - exactly one check value is accepted for each message;
    - a single flipped bit, in the check value or in the message, is always caught;
    - the three datasheet vectors pass.
- `protocol.dfy` (module `Protocol`): what `readValue` computes from a reply script.
  - `Polls` is the number of polls; `Outcome` is the result.
  - A result is `TimedOut`, `BadCrc` or `Ok(value)`.
- `user_register.dfy` (module `UserRegister`): `WithResolution`, the register that `setResolution` writes back. The module also defines the four resolutions and their codes.
- `conversion.dfy` (module `Conversion`): the humidity and temperature formulas in exact real arithmetic.
- `htu21d.dfy` (module `Htu21dDriver`): class `Htu21d`, which holds its `port`.
  - Its methods `ReadValue`, `ReadHumidity`, `ReadTemperature`, `ReadUserRegister`, `WriteUserRegister` and `SetResolution` follow the source step by step.
  - Each method states the whole new state of the port in terms of the definitions above.

**Sentinel values.** The source reports errors through the sentinel words
998 and 999. The model gives them constructors of their own.
`Protocol.Encode` and `Protocol.DecodeWord` map between the two forms, and
`Protocol.SentinelsUnambiguous` shows that nothing is lost. The values 998
(timeout) and 999 (bad CRC) come from the comments at
`Particle/GreenMcp/lib/SparkFunHTU21D.cpp:97-101`. The header that defines
`ERROR_I2C_TIMEOUT` and `ERROR_BAD_CRC` is not part of this model.

**Resolution bits.** The code of `setResolution` masks with `B01111110` and
`B10000001`, so the resolution bits are bits 7 and 0. The model follows the
code.

**Poll quirk.** The loop increments its counter before testing it.
Consequences:

- A first complete reply on the tenth poll still leaves the counter at `MAX_COUNTER`, and `readValue` reports a timeout.
- A measurement is returned only when one of the first nine polls brings three bytes.
- `Protocol.TimeoutIff` and `Protocol.DatasheetReadingOnTenthPoll` state this.

## Model

| member | source | states |
|---|---|---|
| Crc8.CheckCrc | Particle/GreenMcp/lib/SparkFunHTU21D.cpp:190-221 | The loop returns exactly `Crc(message, checkValue)`. The 32-bit working register ends equal to the remainder of the 16-step division, so the byte cast at the end drops nothing. |
| Crc8.DivisorIsAlignedPolynomial | Particle/GreenMcp/lib/SparkFunHTU21D.cpp:186-188 | `0x988000` is the polynomial `0x131` shifted to the top of a 24-bit register. |
| Crc8.DividendFields | Particle/GreenMcp/lib/SparkFunHTU21D.cpp:197-198 | The 24-bit dividend has nothing above bit 23. The message is its bits 23..8 and the check value its bits 7..0. |
| Crc8.StepSet | Particle/GreenMcp/lib/SparkFunHTU21D.cpp:213-214 | When the examined bit is set, a step XORs in the aligned divisor. |
| Crc8.StepUnset | Particle/GreenMcp/lib/SparkFunHTU21D.cpp:213-214 | When the examined bit is clear, a step leaves the register alone. |
| Crc8.StepClears | Particle/GreenMcp/lib/SparkFunHTU21D.cpp:202-203 | If bits 23..24-i are zero before step i, then bits 23..23-i are zero after it: each step clears the bit it tests and sets nothing above it. |
| Crc8.DivideFitsByte | Particle/GreenMcp/lib/SparkFunHTU21D.cpp:204-218 | Running the remaining steps from a register whose top bits are clear leaves a value below 256. |
| Crc8.RemainderFitsByte | Particle/GreenMcp/lib/SparkFunHTU21D.cpp:202-203 | The final remainder is below 256, and the byte `Crc` returns, widened back, equals it. |
| Crc8.StepXor | Particle/GreenMcp/lib/SparkFunHTU21D.cpp:213-214 | One division step is linear over GF(2): `Step(a ^ b) == Step(a) ^ Step(b)`. |
| Crc8.RunHomomorphic | Particle/GreenMcp/lib/SparkFunHTU21D.cpp:204-218 | A sequence of steps that each commute with a combining operation commutes with it as a whole. |
| Crc8.DivideXor | Particle/GreenMcp/lib/SparkFunHTU21D.cpp:204-218 | The whole 16-step division is linear over GF(2): dividing the XOR of two words gives the XOR of their remainders. |
| Crc8.DivideKeepsLowByte | Particle/GreenMcp/lib/SparkFunHTU21D.cpp:204-218 | A dividend with nothing above bit 7 passes through the division unchanged: the check value alone never steers a branch. |
| Crc8.CrcLinear | Particle/GreenMcp/lib/SparkFunHTU21D.cpp:197-198 | The check byte of the XOR of two frames is the XOR of their check bytes. |
| Crc8.CrcOfCheckValueAlone | Particle/GreenMcp/lib/SparkFunHTU21D.cpp:197-198 | With a zero message, the result is the check value itself. |
| Crc8.CheckValueXor | Particle/GreenMcp/lib/SparkFunHTU21D.cpp:197-198 | `Crc(m, c) == Crc(m, 0) ^ c` for every message and check value. |
| Crc8.UniqueCheckValue | Particle/GreenMcp/lib/SparkFunHTU21D.cpp:180-183 | The check passes (returns 0) if and only if the check value is `Crc(m, 0)`. Exactly one check value is accepted per message. |
| Crc8.CheckValueAccepted | Particle/GreenMcp/lib/SparkFunHTU21D.cpp:180-183 | The check value `Crc(m, 0)` is accepted for message `m`. |
| Crc8.CheckValueBitFlipDetected | Particle/GreenMcp/lib/SparkFunHTU21D.cpp:182-183 | Flipping any one of the 8 bits of an accepted check value makes the check fail. |
| Crc8.SingleBitMessage | Particle/GreenMcp/lib/SparkFunHTU21D.cpp:186-188 | For each of the 16 one-bit messages, the check byte with a zero check value is non-zero. |
| Crc8.FlipCaught | Particle/GreenMcp/lib/SparkFunHTU21D.cpp:182-183 | An error pattern in the message whose own check byte is non-zero turns every accepted frame into a rejected one. |
| Crc8.MessageBitFlipDetected | Particle/GreenMcp/lib/SparkFunHTU21D.cpp:182-183 | Flipping any one of the 16 bits of the message of an accepted frame makes the check fail. |
| Crc8.DatasheetVectorA | Particle/GreenMcp/lib/SparkFunHTU21D.cpp:193 | Message 0x00DC with check value 0x79 gives 0. |
| Crc8.DatasheetVectorB | Particle/GreenMcp/lib/SparkFunHTU21D.cpp:194 | Message 0x683A with check value 0x7C gives 0. |
| Crc8.DatasheetVectorC | Particle/GreenMcp/lib/SparkFunHTU21D.cpp:195 | Message 0x4E85 with check value 0x6B gives 0. |
| Protocol.PollsFrom | Particle/GreenMcp/lib/SparkFunHTU21D.cpp:75-81 | From poll k on, the loop makes at least one more poll while the counter allows it, and stops at MAX_COUNTER at the latest. Stopping before MAX_COUNTER means the last poll was complete. |
| Protocol.PollsFromIncomplete | Particle/GreenMcp/lib/SparkFunHTU21D.cpp:75-81 | Every poll from the k-th up to the one before the last was answered with fewer than three bytes. |
| Protocol.MaxCounterIsQuotient | Particle/GreenMcp/lib/SparkFunHTU21D.cpp:59-61 | The literal 10 used for MAX_COUNTER is MAX_WAIT / DELAY_INTERVAL = 100 / 10. |
| Protocol.Polls | Particle/GreenMcp/lib/SparkFunHTU21D.cpp:59-61 | The loop makes between 1 and MAX_COUNTER = 100/10 = 10 polls, so it always terminates. |
| Protocol.PollsFirstComplete | Particle/GreenMcp/lib/SparkFunHTU21D.cpp:75-81 | Every reply before the last poll is incomplete. If the loop stopped early, the last reply is complete. |
| Protocol.TimeoutIff | Particle/GreenMcp/lib/SparkFunHTU21D.cpp:75-83 | The outcome is a timeout if and only if none of the first nine replies has three bytes. |
| Protocol.LastPollTimesOut | Particle/GreenMcp/lib/SparkFunHTU21D.cpp:75-83 | A first complete reply on the tenth poll is still reported as a timeout. |
| Protocol.DecodesFirstComplete | Particle/GreenMcp/lib/SparkFunHTU21D.cpp:83-94 | Without a timeout, the outcome is the decoding of the first complete reply. |
| Protocol.PollingStarts | Particle/GreenMcp/lib/SparkFunHTU21D.cpp:75 | The loop state holds before the first poll. |
| Protocol.PollingStep | Particle/GreenMcp/lib/SparkFunHTU21D.cpp:75-81 | One poll, answered by the next scripted reply, preserves the loop state. |
| Protocol.PollingEnds | Particle/GreenMcp/lib/SparkFunHTU21D.cpp:75-83 | When the loop exits, `PollingDone` holds: it has made `Polls(replies)` polls. On a timeout the buffer holds what the tenth poll brought; otherwise it holds the first three bytes of the first complete reply. |
| Protocol.RawValue | Particle/GreenMcp/lib/SparkFunHTU21D.cpp:90 | The 16-bit word gives back the first byte as its high byte and the second as its low byte. |
| Protocol.DecodeFramePrefix | Particle/GreenMcp/lib/SparkFunHTU21D.cpp:85-88 | Only the first three bytes of a reply take part in decoding. |
| Protocol.BadCrcIff | Particle/GreenMcp/lib/SparkFunHTU21D.cpp:92 | A complete frame is rejected if and only if `checkCRC` of its data and checksum is non-zero, and it never decodes to a timeout. |
| Protocol.OkValueShape | Particle/GreenMcp/lib/SparkFunHTU21D.cpp:94 | Every successful outcome has its two low bits zero and is at most 0xFFFC. |
| Protocol.SensorFrame | Particle/GreenMcp/lib/SparkFunHTU21D.cpp:85-90 | The frame of a measurement is complete and its first two bytes assemble back to that measurement. |
| Protocol.RawValueOfBytes | Particle/GreenMcp/lib/SparkFunHTU21D.cpp:90 | Splitting a word into bytes and assembling them gives the word back. |
| Protocol.DecodeSensorFrame | Particle/GreenMcp/lib/SparkFunHTU21D.cpp:85-94 | A frame carrying the right check value decodes to the measurement with its status bits cleared. |
| Protocol.DecodeWrongChecksum | Particle/GreenMcp/lib/SparkFunHTU21D.cpp:92 | The same data with any other checksum byte is rejected as a bad CRC. |
| Protocol.DatasheetReading | Particle/GreenMcp/lib/SparkFunHTU21D.cpp:83-95 | Answering the first poll with datasheet vector 0x4E 0x85 0x6B gives `Ok(0x4E84)`. |
| Protocol.DatasheetReadingOnTenthPoll | Particle/GreenMcp/lib/SparkFunHTU21D.cpp:75-83 | The same frame after nine empty polls gives a timeout. |
| Protocol.SentinelsUnambiguous | Particle/GreenMcp/lib/SparkFunHTU21D.cpp:97-106 | Encoding a result as a 16-bit word (998, 999 or the value) and testing that word as `readHumidity` does gives the result back. |
| Wire.Received | Particle/GreenMcp/lib/SparkFunHTU21D.cpp:80 | A request delivers a prefix of the reply, no longer than the quantity asked for, and stops short only at the end of the reply. |
| Wire.DropReplyAt | Particle/GreenMcp/lib/SparkFunHTU21D.cpp:75-81 | After k polls, reply j of the rest of the script is reply k + j of the whole script. |
| Wire.Port.Transmit | Particle/GreenMcp/lib/SparkFunHTU21D.cpp:67-69 | A transmission is appended to the log. A register write changes the register; nothing else changes. |
| Wire.Port.RequestFrom | Particle/GreenMcp/lib/SparkFunHTU21D.cpp:80 | The buffer becomes what arrived, and the count returned is its length. After a register read command the register arrives; otherwise the next unused scripted reply does and the cursor `polled` moves on by one. The script itself never changes. |
| Wire.Port.Read | Particle/GreenMcp/lib/SparkFunHTU21D.cpp:86-88 | `Read` pops the next buffered byte, or gives 0xFF (the -1 of an empty buffer, as a byte) and leaves the buffer empty. |
| UserRegister.WithResolution | Particle/GreenMcp/lib/SparkFunHTU21D.cpp:145-148 | The new register agrees with the old one on bits 1-6 and with the argument on bits 7 and 0. |
| UserRegister.WithResolutionBit | Particle/GreenMcp/lib/SparkFunHTU21D.cpp:145-148 | Bit by bit: bits 7 and 0 come from the argument, every other bit from the old register. |
| UserRegister.WithResolutionIdempotent | Particle/GreenMcp/lib/SparkFunHTU21D.cpp:143-152 | Setting a resolution twice leaves the register as setting it once. |
| UserRegister.WithResolutionIgnoresOtherBits | Particle/GreenMcp/lib/SparkFunHTU21D.cpp:147 | Bits of the argument other than 7 and 0 make no difference. |
| UserRegister.Code | Particle/GreenMcp/lib/SparkFunHTU21D.cpp:135-141 | A resolution's code uses only the resolution bits. |
| UserRegister.ResolutionOf | Particle/GreenMcp/lib/SparkFunHTU21D.cpp:135-141 | The resolution a register selects has, as its code, the register's resolution bits. |
| UserRegister.CodeInjective | Particle/GreenMcp/lib/SparkFunHTU21D.cpp:137-140 | The four resolutions have four different codes. |
| UserRegister.ResolutionOfWith | Particle/GreenMcp/lib/SparkFunHTU21D.cpp:137-148 | Writing a resolution's code selects that resolution, whatever the register held before. |
| UserRegister.PowerOnIsZero | Particle/GreenMcp/lib/SparkFunHTU21D.cpp:137-141 | The power-on setting 0/0 gives 12-bit humidity and 14-bit temperature. |
| Conversion.HumidityRange | Particle/GreenMcp/lib/SparkFunHTU21D.cpp:109-110 | For raw values up to 0xFFFC, the humidity lies in [-6, 119). |
| Conversion.TemperatureRange | Particle/GreenMcp/lib/SparkFunHTU21D.cpp:127-128 | For raw values up to 0xFFFC, the temperature lies in [-46.85, 128.87). |
| Conversion.ConversionsIncreasing | Particle/GreenMcp/lib/SparkFunHTU21D.cpp:109-110 | Both formulas are strictly increasing in the raw value. |
| Htu21dDriver.Convert | Particle/GreenMcp/lib/SparkFunHTU21D.cpp:104-110 | Errors pass through unchanged, and a measurement is mapped through the formula. |
| Htu21dDriver.Htu21d.constructor | Particle/GreenMcp/lib/SparkFunHTU21D.cpp:40-51 | The object uses the port it is given. |
| Htu21dDriver.Htu21d.Assign | Particle/GreenMcp/lib/SparkFunHTU21D.cpp:48-52 | `assign` makes the given port the one in use. |
| Htu21dDriver.Htu21d.ReadValue | Particle/GreenMcp/lib/SparkFunHTU21D.cpp:64-95 | The result is `Outcome` of the replies not yet used (`Pending`). It sends one measurement command, uses up exactly `Polls` of them and leaves the register alone. On success or bad CRC the buffer is empty; on a timeout it holds what the tenth poll brought. |
| Htu21dDriver.Htu21d.Poll | Particle/GreenMcp/lib/SparkFunHTU21D.cpp:71-81 | `PollingDone` holds of the pending replies: the loop makes `Polls` polls and consumes that many replies. On a timeout the buffer holds what the tenth poll brought; otherwise the first three bytes of the first complete reply. |
| Htu21dDriver.Htu21d.ReadFrame | Particle/GreenMcp/lib/SparkFunHTU21D.cpp:85-94 | The three reads are decoded exactly as `DecodeFrame` says: bad CRC, or the word with its status bits cleared. The three bytes leave the buffer. |
| Htu21dDriver.Htu21d.ReadHumidity | Particle/GreenMcp/lib/SparkFunHTU21D.cpp:102-113 | A measurement is converted to relative humidity; a timeout or bad CRC passes through. The port changes as in `ReadValue`: the same replies used, the same command logged, the register untouched, and the buffer empty unless the read timed out. |
| Htu21dDriver.Htu21d.ReadTemperature | Particle/GreenMcp/lib/SparkFunHTU21D.cpp:120-131 | A measurement is converted to degrees Celsius; a timeout or bad CRC passes through. The port changes as in `ReadValue`: the same replies used, the same command logged, the register untouched, and the buffer empty unless the read timed out. |
| Htu21dDriver.Htu21d.ReadUserRegister | Particle/GreenMcp/lib/SparkFunHTU21D.cpp:155-170 | It returns the sensor's register after one register read command. The register and the reply script are unchanged. |
| Htu21dDriver.Htu21d.WriteUserRegister | Particle/GreenMcp/lib/SparkFunHTU21D.cpp:172-178 | The register becomes the value given, and exactly one write command is sent. |
| Htu21dDriver.Htu21d.SetResolution | Particle/GreenMcp/lib/SparkFunHTU21D.cpp:143-152 | The register becomes `WithResolution(old register, resolution)`. Exactly a read and then a write of that value are sent, and the reply script is untouched. |

## Left out

- The I2C bus is not modelled: `TwoWire` itself, the device address, and the byte values of the commands. Commands are symbolic constructors, because their values live in a header that is not part of this model.
- `begin` only starts the bus, so it has no counterpart.
- `delay(DELAY_INTERVAL)` is not modelled (time is not modelled); only the number of polls is.
- The formulas for humidity and temperature are modelled in exact real arithmetic. The source multiplies in `double`, rounds the product to `float`, subtracts in `double` and rounds to `float` again; none of these roundings is captured.
- Conversion.RelativeHumidity and Conversion.Temperature take the raw word as the unsigned number it stands for (`as nat` at the call site), because the C code promotes the `uint16_t` to `double` (the constants `125.0 / 65536.0` and `175.72 / 65536.0` are `double`), computes in `double`, and rounds the result to `float` on assignment.
- Byte widths: `counter`, `toRead` and the count `requestFrom` returns are `byte` in the source. The model uses `nat`, since they never exceed 10 and 3.
- The error words 998 and 999 are taken from the comments on `readHumidity` and `readTemperature`; the header that defines them is not part of this model.
- `ReadValue` splits the source's single function into the polling loop (`Poll`) and the frame decoding (`ReadFrame`) so that each is proved on its own. Together they do what `readValue` does.
- Htu21dDriver.Htu21d.ReadFrame requires a complete frame in the buffer. `readValue` reaches that code only after a poll brought three bytes, so no case the source reaches is excluded.
- The `Serial` debugging lines inside `checkCRC` are commented out in the source and have no counterpart.
