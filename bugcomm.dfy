/** The receiver side of the ESP-NOW link (class BugComm): a single-slot
    mailbox filled by the receive callback, the pairing step that promotes the
    discovered sender from broadcast to unicast peer, and the status reply.

    Each method of class BugComm is tied to a pure step function over a
    snapshot of the class's state (datatype Link); the properties are proved
    about those functions in module BugCommProofs. */
module BugCommLib {
  import opened MachineInts

  /** Constants of BugComm.h, which is not part of this model: the struct sizes,
      BUGCOMM_SIGNATURE, BUGCOMM_VERSION and BROADCAST_MAC_ADDRESS. They are fixed
      for a build but unknown here, so every result holds for all of them. */
  datatype Config = Config(
    commandSize: nat,
    responseSize: nat,
    discoverySize: nat,
    signature: UInt32,
    version: UInt8,
    broadcastAddress: Mac)

  datatype Header = Header(signature: UInt32, version: UInt8)

  type MotorBytes = s: seq<UInt8> | |s| == 4 witness [0, 0, 0, 0]

  /** BugComm_Command as the receive callback's copy leaves it. */
  datatype Command = Command(
    header: Header,
    speeds: MotorBytes,
    colorLeft: UInt32,
    colorRight: UInt32,
    button: UInt8)

  /** BugComm_Response (also the buffer that discovery packets are read into). */
  datatype Response = Response(header: Header, status: UInt8)

  const ZeroHeader := Header(0, 0)
  const ZeroCommand := Command(ZeroHeader, [0, 0, 0, 0], 0, 0, 0)
  const ZeroResponse := Response(ZeroHeader, 0)

  datatype Option<T> = None | Some(value: T)

  /** Which rejection message the pairing step prints. */
  datatype Reason = SizeMismatch | SignatureMismatch | VersionMismatch | CodingError

  /** The transport as a log: what was asked of WiFi and ESP-NOW, and what came back. */
  datatype RadioOp =
    | RadioRestart(channel: UInt8)            // WiFi.disconnect, softAP on the channel, station mode
    | EspNowInit(ok: bool)                    // esp_now_init and callback registration
    | AddPeer(address: Mac, channel: UInt8, ok: bool)
    | DelPeer(address: Mac, ok: bool)
    | Send(to: Mac, packet: Response)

  /** The results ESP-NOW gives a pairing step: deleting the broadcast peer,
      re-initialising, and adding the new peer. */
  datatype Outcomes = Outcomes(delPeerOk: bool, initOk: bool, addPeerOk: bool)

  /** The static fields of class BugComm, with the transport log. */
  datatype Link = Link(
    dataReady: bool,
    dataValid: bool,
    connected: bool,
    channel: UInt8,
    responseLen: UInt8,
    responseAddress: Mac,
    peerAddress: Mac,
    datagram: Command,
    response: Response,
    radio: seq<RadioOp>)

  predicate HeaderMatches(cfg: Config, h: Header)
  {
    h.signature == cfg.signature && h.version == cfg.version
  }

  /** The validity rule of both handlers: exactly the expected length, and only
      then the signature and the version. */
  predicate Accepted(cfg: Config, expectedSize: nat, len: int, h: Header)
  {
    expectedSize == len && HeaderMatches(cfg, h)
  }

  /** The static initialisers. */
  function Initial(): Link
  {
    Link(false, false, false, 0, 0, ZeroMac, ZeroMac, ZeroCommand, ZeroResponse, [])
  }

  /** on_data_received: while connected the datagram is read as a Command, before
      that as a Response; either way sender, length and the ready flag are recorded.
      asCommand and asResponse are the arriving bytes read through the two layouts. */
  function Received(cfg: Config, s: Link, mac: Mac, len: int, asCommand: Command, asResponse: Response): Link
  {
    var t :=
      if s.connected then
        s.(datagram := asCommand, dataValid := Accepted(cfg, cfg.commandSize, len, asCommand.header))
      else
        s.(response := asResponse, dataValid := Accepted(cfg, cfg.responseSize, len, asResponse.header));
    t.(responseAddress := mac, responseLen := ToUInt8(len), dataReady := true)
  }

  /** initialize_esp_now's effect on the state: the channel is recorded, the radio
      restarted, and the peer added only when ESP-NOW came up. */
  function Initialized(s: Link, chan: UInt8, mac: Mac, initOk: bool, addPeerOk: bool): Link
  {
    var t := s.(channel := chan, radio := s.radio + [RadioRestart(chan), EspNowInit(initOk)]);
    if initOk then t.(radio := t.radio + [AddPeer(mac, chan, addPeerOk)]) else t
  }

  /** process_pairing_response's effect on the state. */
  function PairingStep(cfg: Config, s: Link, o: Outcomes): Link
  {
    var valid := Accepted(cfg, cfg.discoverySize, s.responseLen, s.response.header);
    var t := s.(dataReady := false, dataValid := valid);
    if !valid then t
    else
      var u := t.(connected := true,
                  peerAddress := t.responseAddress,
                  radio := t.radio + [Send(cfg.broadcastAddress, t.response), DelPeer(cfg.broadcastAddress, o.delPeerOk)]);
      if o.delPeerOk then Initialized(u, u.channel, u.responseAddress, o.initOk, o.addPeerOk) else u
  }

  /** The rejection message process_pairing_response prints, if any. The size it
      reports against is sizeof(BugComm_Response), not the discovery size it checked. */
  function PairingDiagnostic(cfg: Config, s: Link): Option<Reason>
  {
    if Accepted(cfg, cfg.discoverySize, s.responseLen, s.response.header) || s.responseLen == 0 then None
    else if cfg.responseSize != s.responseLen then Some(SizeMismatch)
    else if cfg.signature != s.response.header.signature then Some(SignatureMismatch)
    else if cfg.version != s.response.header.version then Some(VersionMismatch)
    else Some(CodingError)
  }

  /** send_response: the status goes into the response buffer, which is sent to the peer. */
  function Replied(s: Link, status: UInt8): Link
  {
    var r := s.response.(status := status);
    s.(response := r, radio := s.radio + [Send(s.peerAddress, r)])
  }

  class BugComm {
    const cfg: Config

    var dataReady: bool
    var dataValid: bool
    var connected: bool
    var channel: UInt8
    var responseLen: UInt8
    var responseAddress: Mac
    var peerAddress: Mac
    var datagram: Command
    var response: Response
    ghost var radio: seq<RadioOp>

    ghost function State(): Link
      reads this
    {
      Link(dataReady, dataValid, connected, channel, responseLen,
           responseAddress, peerAddress, datagram, response, radio)
    }

    constructor (cfg: Config)
      ensures this.cfg == cfg
      ensures State() == Initial()
    {
      this.cfg := cfg;
      dataReady, dataValid, connected := false, false, false;
      channel, responseLen := 0, 0;
      responseAddress, peerAddress := ZeroMac, ZeroMac;
      datagram, response := ZeroCommand, ZeroResponse;
      radio := [];
    }

    /** Bring up WiFi on the channel and ESP-NOW with one peer; true when both succeed. */
    method InitializeEspNow(chan: UInt8, macAddress: Mac, initOk: bool, addPeerOk: bool) returns (ok: bool)
      modifies this
      ensures State() == Initialized(old(State()), chan, macAddress, initOk, addPeerOk)
      ensures ok == (initOk && addPeerOk)
    {
      channel := chan;
      radio := radio + [RadioRestart(channel)];
      radio := radio + [EspNowInit(initOk)];
      if !initOk {
        return false;
      }
      radio := radio + [AddPeer(macAddress, channel, addPeerOk)];
      if !addPeerOk {
        return false;
      }
      return true;
    }

    /** The receive callback: validate by length, then header, and fill the mailbox. */
    method OnDataReceived(mac: Mac, len: int, asCommand: Command, asResponse: Response)
      modifies this
      ensures State() == Received(cfg, old(State()), mac, len, asCommand, asResponse)
    {
      if connected {
        datagram := asCommand;
        dataValid := cfg.commandSize == len;
        if dataValid {
          dataValid := cfg.signature == datagram.header.signature && cfg.version == datagram.header.version;
        }
      } else {
        response := asResponse;
        dataValid := cfg.responseSize == len;
        if dataValid {
          dataValid := cfg.signature == response.header.signature && cfg.version == response.header.version;
        }
      }
      responseAddress := mac;
      responseLen := ToUInt8(len);
      dataReady := true;
    }

    /** Drain the mailbox while waiting for pairing; on a valid discovery packet,
        echo it to the broadcast address and move the sender into the peer table.
        The rejection message printed, if any, is returned. */
    method ProcessPairingResponse(o: Outcomes) returns (diagnostic: Option<Reason>)
      modifies this
      ensures State() == PairingStep(cfg, old(State()), o)
      ensures diagnostic == PairingDiagnostic(cfg, old(State()))
    {
      diagnostic := None;
      dataReady := false;
      dataValid := cfg.discoverySize == responseLen;
      if dataValid {
        dataValid := cfg.signature == response.header.signature && cfg.version == response.header.version;
      }
      if dataValid {
        connected := true;
        radio := radio + [Send(cfg.broadcastAddress, response)];
        peerAddress := responseAddress;
        radio := radio + [DelPeer(cfg.broadcastAddress, o.delPeerOk)];
        if !o.delPeerOk {
          return;
        }
        var _ := InitializeEspNow(channel, responseAddress, o.initOk, o.addPeerOk);
        return;
      }
      if responseLen == 0 {
        return;
      }
      if cfg.responseSize != responseLen {
        diagnostic := Some(SizeMismatch);
      } else if cfg.signature != response.header.signature {
        diagnostic := Some(SignatureMismatch);
      } else if cfg.version != response.header.version {
        diagnostic := Some(VersionMismatch);
      } else {
        diagnostic := Some(CodingError);
      }
    }

    /** Tell the controller how the last command was handled. */
    method SendResponse(status: UInt8)
      modifies this
      ensures State() == Replied(old(State()), status)
    {
      response := response.(status := status);
      radio := radio + [Send(peerAddress, response)];
    }

    /** Colour of a light in the stored command: 0 past index 2, the left colour
        for 0, and the right colour for both 1 and 2. */
    function GetLightColor(pos: UInt8): (color: UInt32)
      reads this
      ensures pos > 2 ==> color == 0
      ensures pos == 0 ==> color == datagram.colorLeft
      ensures 0 < pos <= 2 ==> color == datagram.colorRight
    {
      if pos > 2 then 0 else if pos == 0 then datagram.colorLeft else datagram.colorRight
    }

    /** Raw speed byte of a motor in the stored command, or 0 past the fourth motor. */
    function GetMotorSpeed(pos: UInt8): (speed: UInt8)
      reads this
      ensures pos < 4 ==> speed == datagram.speeds[pos]
      ensures pos >= 4 ==> speed == 0
    {
      match pos
      case 0 => datagram.speeds[0]
      case 1 => datagram.speeds[1]
      case 2 => datagram.speeds[2]
      case 3 => datagram.speeds[3]
      case _ => 0
    }

    /** The button byte of the stored command. */
    function GetButton(): (button: UInt8)
      reads this
      ensures button == datagram.button
    {
      datagram.button
    }
  }

  /** What drives the receiver: an arriving datagram, a pairing poll, or a status reply. */
  datatype Event =
    | Arrival(mac: Mac, len: int, asCommand: Command, asResponse: Response)
    | PairingPoll(outcomes: Outcomes)
    | Reply(status: UInt8)

  /** One event. The pairing step is polled only while waiting for pairing, so a
      poll after pairing does nothing. */
  function Step(cfg: Config, s: Link, e: Event): Link
  {
    match e
    case Arrival(mac, len, c, r) => Received(cfg, s, mac, len, c, r)
    case PairingPoll(o) => if s.connected then s else PairingStep(cfg, s, o)
    case Reply(status) => Replied(s, status)
  }

  /** The state after a sequence of events, applied first to last. */
  function Run(cfg: Config, s: Link, events: seq<Event>): Link
    decreases |events|
  {
    if events == [] then s
    else Step(cfg, Run(cfg, s, events[..|events| - 1]), events[|events| - 1])
  }
}
