/** Properties of the BugComm receiver: datagram classification, the mailbox,
    the pairing step, the reply, and what any sequence of events can do. */
module BugCommProofs {
  import opened MachineInts
  import opened BugCommLib

  // ---------------------------------------------------------------------------
  // The receive callback

  /** While connected a datagram is valid exactly when it has the Command size and
      the right signature and version; a wrong length rejects it whatever its header. */
  lemma ValidityWhileConnected(cfg: Config, s: Link, mac: Mac, len: int, c: Command, r: Response)
    requires s.connected
    ensures Received(cfg, s, mac, len, c, r).dataValid
            <==> len == cfg.commandSize && c.header.signature == cfg.signature && c.header.version == cfg.version
    ensures len != cfg.commandSize ==> !Received(cfg, s, mac, len, c, r).dataValid
  {
  }

  /** Before pairing, validity is judged against the Response size instead. */
  lemma ValidityWhileUnpaired(cfg: Config, s: Link, mac: Mac, len: int, c: Command, r: Response)
    requires !s.connected
    ensures Received(cfg, s, mac, len, c, r).dataValid
            <==> len == cfg.responseSize && r.header.signature == cfg.signature && r.header.version == cfg.version
    ensures len != cfg.responseSize ==> !Received(cfg, s, mac, len, c, r).dataValid
  {
  }

  /** Every arrival, valid or not, records its sender and length and raises the ready
      flag; the bytes land in the Command buffer once connected and in the Response
      buffer before; the link itself (connection, peer, channel, transport) is untouched. */
  lemma ArrivalFillsMailbox(cfg: Config, s: Link, mac: Mac, len: int, c: Command, r: Response)
    ensures var t := Received(cfg, s, mac, len, c, r);
      && t.dataReady
      && t.responseAddress == mac
      && t.responseLen == ToUInt8(len)
      && (0 <= len < 0x100 ==> t.responseLen == len)
      && t.connected == s.connected && t.peerAddress == s.peerAddress
      && t.channel == s.channel && t.radio == s.radio
      && (s.connected ==> t.datagram == c && t.response == s.response)
      && (!s.connected ==> t.response == r && t.datagram == s.datagram)
  {
  }

  /** The mailbox holds only the latest arrival: a second arrival before the drain
      leaves exactly the state the second alone would have left. */
  lemma MailboxKeepsLatest(cfg: Config, s: Link,
                           mac1: Mac, len1: int, c1: Command, r1: Response,
                           mac2: Mac, len2: int, c2: Command, r2: Response)
    ensures Received(cfg, Received(cfg, s, mac1, len1, c1, r1), mac2, len2, c2, r2)
            == Received(cfg, s, mac2, len2, c2, r2)
  {
  }

  // ---------------------------------------------------------------------------
  // The pairing step

  /** The pairing step always empties the mailbox, and judges the pending packet by
      the Discovery size with the same signature and version checks. */
  lemma PairingValidity(cfg: Config, s: Link, o: Outcomes)
    ensures !PairingStep(cfg, s, o).dataReady
    ensures PairingStep(cfg, s, o).dataValid
            <==> s.responseLen == cfg.discoverySize
                 && s.response.header.signature == cfg.signature
                 && s.response.header.version == cfg.version
  {
  }

  /** On a valid discovery packet: connected, the peer is the sender, the packet is
      echoed once to the broadcast address, the broadcast peer is deleted and, only if
      that worked, ESP-NOW is restarted on the unchanged channel with the sender as peer. */
  lemma PairingOnValidDiscovery(cfg: Config, s: Link, o: Outcomes)
    requires Accepted(cfg, cfg.discoverySize, s.responseLen, s.response.header)
    ensures var t := PairingStep(cfg, s, o);
      && t.connected
      && t.peerAddress == s.responseAddress
      && t.channel == s.channel
      && t.responseAddress == s.responseAddress
      && t.datagram == s.datagram && t.response == s.response
      && t.radio == s.radio
           + [Send(cfg.broadcastAddress, s.response), DelPeer(cfg.broadcastAddress, o.delPeerOk)]
           + (if !o.delPeerOk then []
              else [RadioRestart(s.channel), EspNowInit(o.initOk)]
                   + (if o.initOk then [AddPeer(s.responseAddress, s.channel, o.addPeerOk)] else []))
  {
  }

  /** On anything else the pairing step only clears the two flags. */
  lemma PairingOnInvalid(cfg: Config, s: Link, o: Outcomes)
    requires !Accepted(cfg, cfg.discoverySize, s.responseLen, s.response.header)
    ensures PairingStep(cfg, s, o) == s.(dataReady := false, dataValid := false)
  {
  }

  /** Nothing is printed for a valid packet or an empty slot; otherwise the message
      names the size first, then the signature, then the version. */
  lemma DiagnosticOrder(cfg: Config, s: Link)
    ensures var d := PairingDiagnostic(cfg, s);
      && (d == None <==> Accepted(cfg, cfg.discoverySize, s.responseLen, s.response.header) || s.responseLen == 0)
      && (d == Some(SizeMismatch) ==> s.responseLen != cfg.responseSize)
      && (d == Some(SignatureMismatch) ==>
            s.responseLen == cfg.responseSize && s.response.header.signature != cfg.signature)
      && (d == Some(VersionMismatch) ==>
            s.responseLen == cfg.responseSize && s.response.header.signature == cfg.signature
            && s.response.header.version != cfg.version)
      && (d == Some(CodingError) ==>
            s.responseLen == cfg.responseSize && HeaderMatches(cfg, s.response.header))
  {
  }

  /** When the Discovery and Response structs have the same size, every rejection
      message names a check that really failed. */
  lemma DiagnosticIsAccurate(cfg: Config, s: Link)
    requires cfg.discoverySize == cfg.responseSize
    requires !Accepted(cfg, cfg.discoverySize, s.responseLen, s.response.header) && s.responseLen != 0
    ensures PairingDiagnostic(cfg, s).Some?
    ensures PairingDiagnostic(cfg, s) != Some(CodingError)
  {
  }

  /** When they differ, a Response-sized packet with the right header is rejected and
      reported as a coding error, since the size message compares with the wrong size. */
  lemma DiagnosticCodingError(cfg: Config, s: Link, o: Outcomes)
    requires cfg.discoverySize != cfg.responseSize
    requires s.responseLen == cfg.responseSize != 0
    requires HeaderMatches(cfg, s.response.header)
    ensures PairingDiagnostic(cfg, s) == Some(CodingError)
    ensures !PairingStep(cfg, s, o).dataValid
  {
  }

  // ---------------------------------------------------------------------------
  // The reply

  /** A reply carries the stored response with the new status, goes to the peer, and
      changes nothing else. */
  lemma ReplyGoesToPeer(s: Link, status: UInt8)
    ensures var t := Replied(s, status);
      && t.radio == s.radio + [Send(s.peerAddress, Response(s.response.header, status))]
      && t.response == Response(s.response.header, status)
      && t.(response := s.response, radio := s.radio) == s
  {
  }

  // ---------------------------------------------------------------------------
  // Sequences of events

  lemma RunSnoc(cfg: Config, s: Link, events: seq<Event>, e: Event)
    ensures Run(cfg, s, events + [e]) == Step(cfg, Run(cfg, s, events), e)
  {
    assert (events + [e])[..|events|] == events;
  }

  /** The sender of the latest arrival, or the initial address when none arrived. */
  function LastSender(initial: Mac, events: seq<Event>): Mac
    decreases |events|
  {
    if events == [] then initial
    else if events[|events| - 1].Arrival? then events[|events| - 1].mac
    else LastSender(initial, events[..|events| - 1])
  }

  /** responseAddress always names the sender of the latest arrival. */
  lemma {:induction false} ResponseAddressIsLatestSender(cfg: Config, s: Link, events: seq<Event>)
    ensures Run(cfg, s, events).responseAddress == LastSender(s.responseAddress, events)
    decreases |events|
  {
    if events != [] {
      ResponseAddressIsLatestSender(cfg, s, events[..|events| - 1]);
    }
  }

  /** Once paired the receiver stays paired with the same peer on the same channel,
      the peer table is never touched again, and every packet it sends goes to the peer. */
  lemma {:induction false} StaysPaired(cfg: Config, s: Link, events: seq<Event>)
    requires s.connected
    ensures var t := Run(cfg, s, events);
      && t.connected && t.peerAddress == s.peerAddress && t.channel == s.channel
      && |s.radio| <= |t.radio| && t.radio[..|s.radio|] == s.radio
      && forall i :: |s.radio| <= i < |t.radio| ==> t.radio[i].Send? && t.radio[i].to == s.peerAddress
    decreases |events|
  {
    if events != [] {
      var p := events[..|events| - 1];
      StaysPaired(cfg, s, p);
      var u := Run(cfg, s, p);
      var t := Run(cfg, s, events);
      assert t == Step(cfg, u, events[|events| - 1]);
      assert t.radio[..|u.radio|] == u.radio;
      assert t.radio[..|s.radio|] == u.radio[..|s.radio|];
    }
  }

  /** Connection is never lost: a prefix that ends connected means the whole run does. */
  lemma {:induction false} ConnectedPersists(cfg: Config, s: Link, events: seq<Event>, i: nat)
    requires i <= |events|
    requires Run(cfg, s, events[..i]).connected
    ensures Run(cfg, s, events).connected
  {
    assert events == events[..i] + events[i..];
    StaysPaired(cfg, Run(cfg, s, events[..i]), events[i..]);
    RunAppend(cfg, s, events[..i], events[i..]);
  }

  lemma {:induction false} RunAppend(cfg: Config, s: Link, a: seq<Event>, b: seq<Event>)
    ensures Run(cfg, s, a + b) == Run(cfg, Run(cfg, s, a), b)
    decreases |b|
  {
    if b == [] {
      assert a + b == a;
    } else {
      var b' := b[..|b| - 1];
      assert (a + b)[..|a + b| - 1] == a + b';
      RunAppend(cfg, s, a, b');
    }
  }

  /** Step j of the events is the one that makes the receiver connected. */
  ghost predicate PairsAt(cfg: Config, s: Link, events: seq<Event>, j: nat)
    requires j < |events|
  {
    !Run(cfg, s, events[..j]).connected && Run(cfg, s, events[..j + 1]).connected
  }

  /** The index of the event that paired the receiver, or -1. */
  ghost function PairingIndex(cfg: Config, s: Link, events: seq<Event>): (k: int)
    ensures -1 <= k < |events|
    decreases |events|
  {
    if events == [] then -1
    else
      var p := events[..|events| - 1];
      if Run(cfg, s, p).connected then PairingIndex(cfg, s, p)
      else if Run(cfg, s, events).connected then |events| - 1
      else -1
  }

  /** Pairing happens at most once, at a pairing poll, and sets the peer to the sender
      of the latest datagram before that poll; the receiver ends connected exactly
      when it happened. */
  lemma {:induction false} PairsExactlyOnce(cfg: Config, s: Link, events: seq<Event>)
    requires !s.connected
    ensures var k := PairingIndex(cfg, s, events);
      && (Run(cfg, s, events).connected <==> k >= 0)
      && (k >= 0 ==>
            && events[k].PairingPoll?
            && PairsAt(cfg, s, events, k)
            && Run(cfg, s, events[..k + 1]) == PairingStep(cfg, Run(cfg, s, events[..k]), events[k].outcomes)
            && Run(cfg, s, events).peerAddress == LastSender(s.responseAddress, events[..k]))
      && (forall j :: 0 <= j < |events| && PairsAt(cfg, s, events, j) ==> j == k)
    decreases |events|
  {
    if events == [] {
      return;
    }
    var n := |events|;
    var p := events[..n - 1];
    var e := events[n - 1];
    assert events == p + [e];
    RunSnoc(cfg, s, p, e);
    PairsExactlyOnce(cfg, s, p);
    var u := Run(cfg, s, p);
    var k' := PairingIndex(cfg, s, p);
    if u.connected {
      StaysPairedOneStep(cfg, u, e);
      forall j | 0 <= j < n && PairsAt(cfg, s, events, j)
        ensures j == k'
      {
        PairsAtPrefix(cfg, s, p, e, j);
      }
      if k' >= 0 {
        PairsAtPrefix(cfg, s, p, e, k');
        assert events[..k'] == p[..k'] && events[..k' + 1] == p[..k' + 1];
      }
    } else {
      assert k' == -1;
      forall j | 0 <= j < n && PairsAt(cfg, s, events, j)
        ensures j == n - 1 && Step(cfg, u, e).connected
      {
        PairsAtPrefix(cfg, s, p, e, j);
      }
      if Step(cfg, u, e).connected {
        assert events[..n - 1] == p;
        assert events[..n] == events;
        assert PairingIndex(cfg, s, events) == n - 1;
        PairsAtPrefix(cfg, s, p, e, n - 1);
        ResponseAddressIsLatestSender(cfg, s, p);
      } else {
        assert PairingIndex(cfg, s, events) == -1;
      }
    }
  }

  /** A step from a connected state keeps the connection and the peer. */
  lemma StaysPairedOneStep(cfg: Config, s: Link, e: Event)
    requires s.connected
    ensures Step(cfg, s, e).connected && Step(cfg, s, e).peerAddress == s.peerAddress
  {
  }

  /** Whether step j pairs is decided by the events up to j. */
  lemma PairsAtPrefix(cfg: Config, s: Link, p: seq<Event>, e: Event, j: nat)
    requires j < |p| + 1
    ensures j < |p| ==> (PairsAt(cfg, s, p + [e], j) <==> PairsAt(cfg, s, p, j))
    ensures j == |p| ==> (PairsAt(cfg, s, p + [e], j)
                         <==> !Run(cfg, s, p).connected && Step(cfg, Run(cfg, s, p), e).connected)
  {
    var events := p + [e];
    if j < |p| {
      assert events[..j] == p[..j];
      assert events[..j + 1] == p[..j + 1];
    } else {
      assert events[..j] == p;
      assert events[..j + 1] == events;
      RunSnoc(cfg, s, p, e);
    }
  }

  /** Pairing sets the peer to the sender of the latest datagram before it. */
  lemma PeerIsDiscoverySender(cfg: Config, s: Link, events: seq<Event>)
    requires !s.connected
    requires Run(cfg, s, events).connected
    ensures exists k :: 0 <= k < |events| && PairsAt(cfg, s, events, k)
              && Run(cfg, s, events).peerAddress == LastSender(s.responseAddress, events[..k])
  {
    PairsExactlyOnce(cfg, s, events);
    var k := PairingIndex(cfg, s, events);
    assert PairsAt(cfg, s, events, k);
  }

  /** The pairing step itself does not test the connected flag: polled again after
      pairing, with a stale discovery-sized packet still in the response buffer, it
      pairs again with whoever sent the latest datagram and talks to the radio again.
      Only the caller's poll-while-unpaired discipline (Step) keeps the peer fixed. */
  lemma UnguardedPollRepairs(cfg: Config, s: Link, o: Outcomes)
    requires s.connected
    requires s.responseLen == cfg.discoverySize && HeaderMatches(cfg, s.response.header)
    ensures var t := PairingStep(cfg, s, o);
      && t.connected && t.peerAddress == s.responseAddress
      && |t.radio| > |s.radio| && t.radio[|s.radio|] == Send(cfg.broadcastAddress, s.response)
    ensures Step(cfg, s, PairingPoll(o)) == s
  {
  }

  // ---------------------------------------------------------------------------
  // An end-to-end run

  /** The pairing half of the run below: a wrongly sized packet and one with a bad
      signature are ignored, and a valid discovery pairs the receiver with its sender. */
  lemma {:induction false} PairingScenario(cfg: Config, chan: UInt8, m1: Mac, m2: Mac, m3: Mac,
                                           junk: Command, r1: Response, r2: Response, r3: Response)
    requires cfg.discoverySize < 0x100
    requires r2.header.signature != cfg.signature
    requires HeaderMatches(cfg, r3.header)
    ensures var ok := PairingPoll(Outcomes(true, true, true));
      var s0 := Initialized(Initial(), chan, cfg.broadcastAddress, true, true);
      var t := Run(cfg, s0, [Arrival(m1, cfg.discoverySize + 1, junk, r1), ok,
                             Arrival(m2, cfg.discoverySize, junk, r2), ok,
                             Arrival(m3, cfg.discoverySize, junk, r3), ok]);
      && t.connected && t.peerAddress == m3 && t.channel == chan && t.response == r3
      && t.radio == s0.radio + [Send(cfg.broadcastAddress, r3), DelPeer(cfg.broadcastAddress, true),
                                RadioRestart(chan), EspNowInit(true), AddPeer(m3, chan, true)]
  {
    var ok := PairingPoll(Outcomes(true, true, true));
    var s0 := Initialized(Initial(), chan, cfg.broadcastAddress, true, true);
    var e1 := Arrival(m1, cfg.discoverySize + 1, junk, r1);
    var e3 := Arrival(m2, cfg.discoverySize, junk, r2);
    var e5 := Arrival(m3, cfg.discoverySize, junk, r3);
    var t1 := Step(cfg, s0, e1);
    var t2 := Step(cfg, t1, ok);
    assert !t2.connected && t2.radio == s0.radio && t2.channel == chan;
    var t3 := Step(cfg, t2, e3);
    var t4 := Step(cfg, t3, ok);
    assert !t4.connected && t4.radio == s0.radio && t4.channel == chan;
    var t5 := Step(cfg, t4, e5);
    assert t5.responseAddress == m3 && t5.response == r3 && t5.responseLen == cfg.discoverySize;
    var t6 := Step(cfg, t5, ok);
    PairingOnValidDiscovery(cfg, t5, ok.outcomes);
    assert t6.connected && t6.peerAddress == m3 && t6.channel == chan;
    RunSnoc(cfg, s0, [], e1);
    assert [] + [e1] == [e1];
    assert Run(cfg, s0, [e1]) == t1;
    RunSnoc(cfg, s0, [e1], ok);
    assert [e1] + [ok] == [e1, ok];
    assert Run(cfg, s0, [e1, ok]) == t2;
    RunSnoc(cfg, s0, [e1, ok], e3);
    assert [e1, ok] + [e3] == [e1, ok, e3];
    assert Run(cfg, s0, [e1, ok, e3]) == t3;
    RunSnoc(cfg, s0, [e1, ok, e3], ok);
    assert [e1, ok, e3] + [ok] == [e1, ok, e3, ok];
    assert Run(cfg, s0, [e1, ok, e3, ok]) == t4;
    RunSnoc(cfg, s0, [e1, ok, e3, ok], e5);
    assert [e1, ok, e3, ok] + [e5] == [e1, ok, e3, ok, e5];
    assert Run(cfg, s0, [e1, ok, e3, ok, e5]) == t5;
    RunSnoc(cfg, s0, [e1, ok, e3, ok, e5], ok);
    assert [e1, ok, e3, ok, e5] + [ok] == [e1, ok, e3, ok, e5, ok];
    assert Run(cfg, s0, [e1, ok, e3, ok, e5, ok]) == t6;
  }

  /** Both sides start on a channel with the broadcast peer; after the pairing run
      above, the sender is registered as unicast peer on the same channel and was
      acknowledged once on the broadcast address; the next command is stored as
      valid and the reply goes to the new peer. */
  lemma {:induction false} EndToEnd(cfg: Config, chan: UInt8, m1: Mac, m2: Mac, m3: Mac,
                                    junk: Command, cmd: Command, r1: Response, r2: Response, r3: Response,
                                    okStatus: UInt8)
    requires cfg.discoverySize < 0x100
    requires r2.header.signature != cfg.signature
    requires HeaderMatches(cfg, r3.header) && HeaderMatches(cfg, cmd.header)
    ensures var ok := PairingPoll(Outcomes(true, true, true));
      var s0 := Initialized(Initial(), chan, cfg.broadcastAddress, true, true);
      var t := Run(cfg, s0, [Arrival(m1, cfg.discoverySize + 1, junk, r1), ok,
                             Arrival(m2, cfg.discoverySize, junk, r2), ok,
                             Arrival(m3, cfg.discoverySize, junk, r3), ok,
                             Arrival(m3, cfg.commandSize, cmd, r1), Reply(okStatus)]);
      && t.connected && t.peerAddress == m3 && t.channel == chan
      && t.datagram == cmd && t.dataValid
      && t.radio == s0.radio + [Send(cfg.broadcastAddress, r3), DelPeer(cfg.broadcastAddress, true),
                                RadioRestart(chan), EspNowInit(true), AddPeer(m3, chan, true),
                                Send(m3, r3.(status := okStatus))]
  {
    var ok := PairingPoll(Outcomes(true, true, true));
    var s0 := Initialized(Initial(), chan, cfg.broadcastAddress, true, true);
    var pairing := [Arrival(m1, cfg.discoverySize + 1, junk, r1), ok,
                    Arrival(m2, cfg.discoverySize, junk, r2), ok,
                    Arrival(m3, cfg.discoverySize, junk, r3), ok];
    var e7 := Arrival(m3, cfg.commandSize, cmd, r1);
    var e8 := Reply(okStatus);
    PairingScenario(cfg, chan, m1, m2, m3, junk, r1, r2, r3);
    RunSnoc(cfg, s0, pairing, e7);
    RunSnoc(cfg, s0, pairing + [e7], e8);
    var t6 := Run(cfg, s0, pairing);
    var t7 := Step(cfg, t6, e7);
    assert t7.connected && t7.datagram == cmd && t7.dataValid && t7.radio == t6.radio;
    assert Run(cfg, s0, pairing + [e7]) == t7;
    var t8 := Step(cfg, t7, e8);
    assert t8.radio == t6.radio + [Send(m3, r3.(status := okStatus))];
    assert Run(cfg, s0, pairing + [e7] + [e8]) == t8;
    assert pairing + [e7] + [e8] == [Arrival(m1, cfg.discoverySize + 1, junk, r1), ok,
                                     Arrival(m2, cfg.discoverySize, junk, r2), ok,
                                     Arrival(m3, cfg.discoverySize, junk, r3), ok, e7, e8];
  }
}
