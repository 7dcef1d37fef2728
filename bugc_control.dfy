/** The BugC actuator state: four motor speed slots and two light colours,
    written to the BugC hat over I2C.  The I2C bus is a ghost log of writes. */
module BugCControlLib {
  import opened MachineInts

  /** I2C address of the BugC hat. */
  const BugCAddr := 0x38
  /** Register of the first motor speed byte, and of the light colour block. */
  const SpeedRegister := 0x00
  const LightRegister := 0x10

  const FrontLeftMotor := 0
  const FrontRightMotor := 1
  const RearLeftMotor := 2
  const RearRightMotor := 3
  const LeftLight := 0
  const RightLight := 1
  const NumMotors := 4
  const NumLights := 2

  /** Speeds range over -MaxSpeed..MaxSpeed. */
  const MaxSpeed := 100

  datatype I2CWrite =
    | WriteByte(device: int, register: int, value: UInt8)
    | WriteBytes(device: int, register: int, data: seq<UInt8>)

  predicate IsMotor(pos: int) { 0 <= pos < NumMotors }

  /** The saturating clamp applied to every speed before it is stored. */
  function Clamp(speed: Int8): (r: Int8)
    ensures -MaxSpeed <= r <= MaxSpeed
    ensures -MaxSpeed <= speed <= MaxSpeed ==> r == speed
    ensures speed > MaxSpeed ==> r == MaxSpeed
    ensures speed < -MaxSpeed ==> r == -MaxSpeed
  {
    if speed > MaxSpeed then MaxSpeed else if speed < -MaxSpeed then -MaxSpeed else speed
  }

  /** No value of the range is closer to the speed than its clamp: saturation, not wrapping. */
  lemma ClampIsNearest(speed: Int8, v: int)
    requires -MaxSpeed <= v <= MaxSpeed
    ensures Dist(Clamp(speed), speed) <= Dist(v, speed)
  {
  }

  function Dist(a: int, b: int): nat { if a < b then b - a else a - b }

  lemma ClampIdempotent(speed: Int8)
    ensures Clamp(Clamp(speed)) == Clamp(speed)
  {
  }

  lemma ClampMonotone(a: Int8, b: Int8)
    requires a <= b
    ensures Clamp(a) <= Clamp(b)
  {
  }

  /** The four bytes sent per light: the light index, then red, green and blue,
      i.e. (c & 0xff0000) >> 16, (c & 0x00ff00) >> 8 and c & 0x0000ff, which for an
      unsigned c are the base-256 digits below. */
  function ColorOut(index: UInt8, color: UInt32): (out: seq<UInt8>)
    ensures |out| == 4 && out[0] == index
    ensures out[1] as int * 0x1_0000 + out[2] as int * 0x100 + out[3] == color % 0x100_0000
  {
    ColorBytesRecombine(color);
    [index, color / 0x1_0000 % 0x100, color / 0x100 % 0x100, color % 0x100]
  }

  /** The three colour bytes are the base-256 digits of the low 24 bits. */
  lemma ColorBytesRecombine(c: nat)
    ensures (c / 0x1_0000 % 0x100) * 0x1_0000 + (c / 0x100 % 0x100) * 0x100 + c % 0x100
            == c % 0x100_0000
  {
    var lo := c % 0x100;
    var q := c / 0x100;
    var mid := q % 0x100;
    var hi := q / 0x100;
    assert c == q * 0x100 + lo;
    assert q == hi * 0x100 + mid;
    assert c / 0x1_0000 == hi by {
      assert c == hi * 0x1_0000 + (mid * 0x100 + lo);
      assert 0 <= mid * 0x100 + lo < 0x1_0000;
    }
    var top := hi / 0x100;
    var red := hi % 0x100;
    assert hi == top * 0x100 + red;
    assert c == top * 0x100_0000 + (red * 0x1_0000 + mid * 0x100 + lo);
    assert 0 <= red * 0x1_0000 + mid * 0x100 + lo < 0x100_0000;
  }

  /** The colour bytes determine the low 24 bits of the colour, and nothing more. */
  lemma ColorOutDeterminesColor(i: UInt8, c: UInt32, d: UInt32)
    requires ColorOut(i, c) == ColorOut(i, d)
    ensures c % 0x100_0000 == d % 0x100_0000
  {
  }

  /** The static state of class BugCControl: speeds[4] holds int8_t values stored
      as uint8_t, lights[2] the 32-bit colours. */
  class BugCControl {
    var speeds: array<UInt8>
    var lights: array<UInt32>
    ghost var bus: seq<I2CWrite>

    /** The layout, and every stored speed within -MaxSpeed..MaxSpeed, since every
        write clamps. */
    ghost predicate Valid()
      reads this, speeds
    {
      && speeds.Length == NumMotors && lights.Length == NumLights
      && forall i :: 0 <= i < NumMotors ==> -MaxSpeed <= AsInt8(speeds[i]) <= MaxSpeed
    }

    /** The speeds as get_speed reads them back, as int8_t. */
    ghost function Speeds(): (v: seq<Int8>)
      reads this, speeds
      requires Valid()
      ensures |v| == NumMotors
      ensures forall i :: 0 <= i < NumMotors ==> v[i] == AsInt8(speeds[i])
    {
      [AsInt8(speeds[0]), AsInt8(speeds[1]), AsInt8(speeds[2]), AsInt8(speeds[3])]
    }

    /** Static storage starts zeroed. */
    constructor ()
      ensures Valid() && fresh(speeds) && fresh(lights)
      ensures speeds[..] == [0, 0, 0, 0] && lights[..] == [0, 0]
      ensures Speeds() == [0, 0, 0, 0]
      ensures bus == []
    {
      speeds := new UInt8[NumMotors](_ => 0);
      lights := new UInt32[NumLights](_ => 0);
      bus := [];
      new;
      assert speeds[..] == [0, 0, 0, 0];
      assert lights[..] == [0, 0];
    }

    /** Clamp a speed into one motor's slot; an index past the last motor is ignored. */
    method SetSpeed(pos: UInt8, speed: Int8)
      requires Valid()
      modifies this`bus, speeds
      ensures Valid()
      ensures lights[..] == old(lights[..])
      ensures !IsMotor(pos) ==> speeds[..] == old(speeds[..]) && bus == old(bus)
      ensures IsMotor(pos) ==>
        && speeds[..] == old(speeds[..])[pos := ToUInt8(Clamp(speed))]
        && bus == old(bus) + [WriteByte(BugCAddr, pos, ToUInt8(Clamp(speed)))]
      ensures Speeds() == if IsMotor(pos) then old(Speeds())[pos := Clamp(speed)] else old(Speeds())
    {
      if pos >= NumMotors {
        return;
      }
      var s := Clamp(speed);
      bus := bus + [WriteByte(BugCAddr, pos, ToUInt8(s))];
      speeds[pos] := ToUInt8(s);
      Int8RoundTrip(s);
    }

    /** Clamp and store all four speeds, then send the four stored bytes in one write. */
    method SetAllSpeeds(speed0: Int8, speed1: Int8, speed2: Int8, speed3: Int8)
      requires Valid()
      modifies this`bus, speeds
      ensures Valid()
      ensures lights[..] == old(lights[..])
      ensures speeds[..] == [ToUInt8(Clamp(speed0)), ToUInt8(Clamp(speed1)),
                             ToUInt8(Clamp(speed2)), ToUInt8(Clamp(speed3))]
      ensures Speeds() == [Clamp(speed0), Clamp(speed1), Clamp(speed2), Clamp(speed3)]
      ensures bus == old(bus) + [WriteBytes(BugCAddr, SpeedRegister, speeds[..])]
    {
      var speedOut := [speed0, speed1, speed2, speed3];
      for i := 0 to NumMotors
        invariant forall k :: 0 <= k < i ==> speeds[k] == ToUInt8(Clamp(speedOut[k]))
        invariant bus == old(bus)
      {
        speeds[i] := ToUInt8(Clamp(speedOut[i]));
      }
      bus := bus + [WriteBytes(BugCAddr, SpeedRegister, speeds[..])];
      Int8RoundTrip(Clamp(speed0));
      Int8RoundTrip(Clamp(speed1));
      Int8RoundTrip(Clamp(speed2));
      Int8RoundTrip(Clamp(speed3));
    }

    /** Send each colour as index, red, green, blue and remember both colours. */
    method SetLights(colorLeft: UInt32, colorRight: UInt32)
      requires Valid()
      modifies this`bus, lights
      ensures Valid()
      ensures speeds[..] == old(speeds[..])
      ensures lights[..] == [colorLeft, colorRight]
      ensures bus == old(bus) + [WriteBytes(BugCAddr, LightRegister, ColorOut(LeftLight, colorLeft)),
                                 WriteBytes(BugCAddr, LightRegister, ColorOut(RightLight, colorRight))]
    {
      bus := bus + [WriteBytes(BugCAddr, LightRegister, ColorOut(LeftLight, colorLeft))];
      lights[LeftLight] := colorLeft;
      bus := bus + [WriteBytes(BugCAddr, LightRegister, ColorOut(RightLight, colorRight))];
      lights[RightLight] := colorRight;
    }

    /** The stored speed of a motor as int8_t, or 0 for an index past the last motor. */
    function GetSpeed(pos: UInt8): (speed: Int8)
      reads this, speeds
      requires Valid()
      ensures IsMotor(pos) ==> speed == Speeds()[pos]
      ensures !IsMotor(pos) ==> speed == 0
      ensures -MaxSpeed <= speed <= MaxSpeed
    {
      if pos >= NumMotors then 0 else AsInt8(speeds[pos])
    }

    /** Lights off, then all motors stopped. */
    method ComeToHalt()
      requires Valid()
      modifies this`bus, speeds, lights
      ensures Valid()
      ensures speeds[..] == [0, 0, 0, 0] && Speeds() == [0, 0, 0, 0]
      ensures lights[..] == [0, 0]
      ensures bus == old(bus) + [WriteBytes(BugCAddr, LightRegister, ColorOut(LeftLight, 0)),
                                 WriteBytes(BugCAddr, LightRegister, ColorOut(RightLight, 0)),
                                 WriteBytes(BugCAddr, SpeedRegister, [0, 0, 0, 0])]
    {
      SetLights(0, 0);
      SetAllSpeeds(0, 0, 0, 0);
    }
  }

  /** What a caller sees after set_speed followed by get_speed on the same motor. */
  method SetSpeedThenGetSpeed(c: BugCControl, pos: UInt8, speed: Int8) returns (read: Int8)
    requires c.Valid()
    modifies c`bus, c.speeds
    ensures read == if IsMotor(pos) then Clamp(speed) else 0
  {
    c.SetSpeed(pos, speed);
    read := c.GetSpeed(pos);
  }
}
