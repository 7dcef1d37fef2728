/** The older single-file receiver (src/main.cpp): a receive callback that keeps
    only correctly sized datagrams, a one-way connected latch, and the drain step
    of the main loop that replies and drives the actuators.

    The actuator calls (BugCSetColor and BugCSetAllSpeed, declared in bugC.h, which
    is not part of this model) and the replies are recorded in an output log. */
module MainSketch {
  import opened MachineInts

  /** sizeof(struct_message) and the controller's MAC address, from headers that
      are not part of this model. */
  datatype Config = Config(messageSize: nat, controllerAddress: Mac)

  type MotorSpeeds = s: seq<Int8> | |s| == 4 witness [0, 0, 0, 0]

  /** The fields of struct_message that the drain reads. */
  datatype Message = Message(speeds: MotorSpeeds, colorLeft: UInt32, colorRight: UInt32)

  const ZeroMessage := Message([0, 0, 0, 0], 0, 0)

  datatype Status = NoErr | Error

  /** What leaves the receiver: a response packet, or a call on the actuators. */
  datatype Output =
    | Reply(to: Mac, status: Status)
    | SetColor(left: UInt32, right: UInt32)
    | SetAllSpeed(speeds: MotorSpeeds)

  /** The globals of src/main.cpp, with the output log. */
  datatype Sketch = Sketch(
    dataReceived: bool,
    dataValid: bool,
    connected: bool,
    datagram: Message,
    out: seq<Output>)

  function Initial(): Sketch
  {
    Sketch(false, false, false, ZeroMessage, [])
  }

  /** OnDataRecv: only a datagram of exactly the message size is kept. */
  function Received(cfg: Config, s: Sketch, len: int, msg: Message): Sketch
  {
    if cfg.messageSize == len then
      s.(dataValid := true, dataReceived := true, connected := true, datagram := msg)
    else
      s.(dataValid := false)
  }

  /** SendResponse: one response to the controller. */
  function Replied(cfg: Config, s: Sketch, status: Status): Sketch
  {
    s.(out := s.out + [Reply(cfg.controllerAddress, status)])
  }

  /** The datagram branch of loop: when something arrived, clear the flag, reply
      with the validity of the latest arrival, and apply the stored datagram. */
  function Drained(cfg: Config, s: Sketch): Sketch
  {
    if !s.dataReceived then s
    else
      var t := Replied(cfg, s.(dataReceived := false), if s.dataValid then NoErr else Error);
      t.(out := t.out + [SetColor(s.datagram.colorLeft, s.datagram.colorRight),
                         SetAllSpeed(s.datagram.speeds)])
  }

  class Receiver {
    const cfg: Config

    var dataReceived: bool
    var dataValid: bool
    var connected: bool
    var datagram: Message
    ghost var out: seq<Output>

    ghost function State(): Sketch
      reads this
    {
      Sketch(dataReceived, dataValid, connected, datagram, out)
    }

    constructor (cfg: Config)
      ensures this.cfg == cfg
      ensures State() == Initial()
    {
      this.cfg := cfg;
      dataReceived, dataValid, connected := false, false, false;
      datagram := ZeroMessage;
      out := [];
    }

    /** The receive callback. The sender's address is not used. */
    method OnDataRecv(mac: Mac, len: int, msg: Message)
      modifies this
      ensures State() == Received(cfg, old(State()), len, msg)
    {
      dataValid := cfg.messageSize == len;
      if dataValid {
        dataReceived := true;
        if !connected {
          connected := true;
        }
        datagram := msg;
      }
    }

    method SendResponse(status: Status)
      modifies this
      ensures State() == Replied(cfg, old(State()), status)
    {
      out := out + [Reply(cfg.controllerAddress, status)];
    }

    /** One pass of loop, without the display and battery refresh. */
    method Loop()
      modifies this
      ensures State() == Drained(cfg, old(State()))
    {
      if dataReceived {
        dataReceived := false;
        SendResponse(if dataValid then NoErr else Error);
        out := out + [SetColor(datagram.colorLeft, datagram.colorRight)];
        out := out + [SetAllSpeed(datagram.speeds)];
      }
    }
  }

  /** What drives the sketch: an arriving datagram, or a pass of loop. */
  datatype Event = Arrival(len: int, msg: Message) | Tick

  function Step(cfg: Config, s: Sketch, e: Event): Sketch
  {
    match e
    case Arrival(len, msg) => Received(cfg, s, len, msg)
    case Tick => Drained(cfg, s)
  }

  function Run(cfg: Config, s: Sketch, events: seq<Event>): Sketch
    decreases |events|
  {
    if events == [] then s
    else Step(cfg, Run(cfg, s, events[..|events| - 1]), events[|events| - 1])
  }
}
