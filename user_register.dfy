/** The HTU21D user register as setResolution sees it: bits 7 and 0 select
    the measurement resolution, the other six bits belong to the sensor and
    are written back as they were read. */
module UserRegister {

  /** B10000001: the two resolution bits. */
  const ResolutionMask: bv8 := 0x81

  /** B01111110: every other bit. */
  const KeepMask: bv8 := 0x7E

  /** The register that setResolution writes back, given the register it read. */
  function WithResolution(register: bv8, resolution: bv8): (r: bv8)
    ensures r & KeepMask == register & KeepMask
    ensures r & ResolutionMask == resolution & ResolutionMask
  {
    (register & KeepMask) | (resolution & ResolutionMask)
  }

  /** Bit j of the new register comes from the argument when j is 7 or 0 and
      from the old register otherwise. */
  lemma WithResolutionBit(register: bv8, resolution: bv8, j: bv8)
    requires j < 8
    ensures (WithResolution(register, resolution) >> j) & 1 ==
            if j == 0 || j == 7 then (resolution >> j) & 1 else (register >> j) & 1
  {
    var r := WithResolution(register, resolution);
    if j == 0 || j == 7 {
      assert (r >> j) & 1 == ((r & ResolutionMask) >> j) & 1;
      assert (resolution >> j) & 1 == ((resolution & ResolutionMask) >> j) & 1;
    } else {
      assert (r >> j) & 1 == ((r & KeepMask) >> j) & 1;
      assert (register >> j) & 1 == ((register & KeepMask) >> j) & 1;
    }
  }

  /** Setting the same resolution twice leaves the register as setting it once. */
  lemma WithResolutionIdempotent(register: bv8, resolution: bv8)
    ensures WithResolution(WithResolution(register, resolution), resolution) == WithResolution(register, resolution)
  {
    var once := WithResolution(register, resolution);
    var twice := WithResolution(once, resolution);
    assert twice & KeepMask == once & KeepMask;
    assert twice & ResolutionMask == once & ResolutionMask;
    assert twice == (twice & KeepMask) | (twice & ResolutionMask);
    assert once == (once & KeepMask) | (once & ResolutionMask);
  }

  /** Bits of the argument other than 7 and 0 are ignored. */
  lemma WithResolutionIgnoresOtherBits(register: bv8, resolution: bv8, junk: bv8)
    ensures WithResolution(register, resolution) ==
            WithResolution(register, (resolution & ResolutionMask) | (junk & KeepMask))
  {
  }

  /** The four resolutions the sensor offers, named by their humidity and
      temperature bit depths. */
  datatype Resolution = Rh12Temp14 | Rh8Temp12 | Rh10Temp13 | Rh11Temp11

  /** The power-on setting: both resolution bits clear. */
  const PowerOnResolution: Resolution := Rh12Temp14

  /** The resolution bits that select a resolution: bit 7 then bit 0 read
      0/0, 0/1, 1/0 and 1/1 in the order of the datatype. */
  function Code(res: Resolution): (c: bv8)
    ensures c & KeepMask == 0
  {
    match res
    case Rh12Temp14 => 0x00
    case Rh8Temp12 => 0x01
    case Rh10Temp13 => 0x80
    case Rh11Temp11 => 0x81
  }

  /** The resolution a register selects. */
  function ResolutionOf(register: bv8): (res: Resolution)
    ensures Code(res) == register & ResolutionMask
  {
    var bits := register & ResolutionMask;
    if bits == 0x00 then Rh12Temp14
    else if bits == 0x01 then Rh8Temp12
    else if bits == 0x80 then Rh10Temp13
    else Rh11Temp11
  }

  function HumidityBits(res: Resolution): nat
  {
    match res
    case Rh12Temp14 => 12
    case Rh8Temp12 => 8
    case Rh10Temp13 => 10
    case Rh11Temp11 => 11
  }

  function TemperatureBits(res: Resolution): nat
  {
    match res
    case Rh12Temp14 => 14
    case Rh8Temp12 => 12
    case Rh10Temp13 => 13
    case Rh11Temp11 => 11
  }

  /** Each resolution has its own code. */
  lemma CodeInjective(a: Resolution, b: Resolution)
    ensures Code(a) == Code(b) <==> a == b
  {
  }

  /** Writing a resolution's code selects that resolution, whatever the
      register held before. */
  lemma ResolutionOfWith(register: bv8, res: Resolution)
    ensures ResolutionOf(WithResolution(register, Code(res))) == res
  {
    CodeInjective(ResolutionOf(WithResolution(register, Code(res))), res);
  }

  lemma PowerOnIsZero()
    ensures Code(PowerOnResolution) == 0
    ensures HumidityBits(PowerOnResolution) == 12 && TemperatureBits(PowerOnResolution) == 14
  {
  }
}
