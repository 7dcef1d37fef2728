/** Properties of the older receiver: only correctly sized datagrams are kept,
    connection latches, each arrival is drained once, and what reaches the
    actuators is always the last correctly sized datagram. */
module MainSketchProofs {
  import opened MachineInts
  import opened MainSketch

  /** A wrongly sized datagram only clears the validity flag. */
  lemma WrongSizeOnlyClearsValid(cfg: Config, s: Sketch, len: int, msg: Message)
    requires len != cfg.messageSize
    ensures Received(cfg, s, len, msg) == s.(dataValid := false)
  {
  }

  /** A correctly sized datagram is stored, flagged and latches the connection. */
  lemma RightSizeIsStored(cfg: Config, s: Sketch, len: int, msg: Message)
    requires len == cfg.messageSize
    ensures var t := Received(cfg, s, len, msg);
      && t.dataValid && t.dataReceived && t.connected && t.datagram == msg && t.out == s.out
  {
  }

  /** A pass of loop with nothing received changes nothing. */
  lemma IdleLoopChangesNothing(cfg: Config, s: Sketch)
    requires !s.dataReceived
    ensures Drained(cfg, s) == s
  {
  }

  /** A drain clears the flag first, answers the controller NOERR exactly when the
      latest arrival was valid, and applies exactly the stored colours and speeds. */
  lemma DrainRepliesAndApplies(cfg: Config, s: Sketch)
    requires s.dataReceived
    ensures var t := Drained(cfg, s);
      && !t.dataReceived
      && t.dataValid == s.dataValid && t.connected == s.connected && t.datagram == s.datagram
      && t.out == s.out + [Reply(cfg.controllerAddress, if s.dataValid then NoErr else Error),
                           SetColor(s.datagram.colorLeft, s.datagram.colorRight),
                           SetAllSpeed(s.datagram.speeds)]
      && (t.out[|s.out|].status == NoErr <==> s.dataValid)
  {
  }

  /** Each arrival is drained once: a second pass of loop does nothing. */
  lemma DrainedOnce(cfg: Config, s: Sketch)
    ensures Drained(cfg, Drained(cfg, s)) == Drained(cfg, s)
  {
  }

  /** An invalid arrival after an undrained valid one: the reply is ERROR, but the
      actuators still get the valid datagram. */
  lemma InvalidAfterValid(cfg: Config, s: Sketch, good: Message, badLen: int, bad: Message)
    requires badLen != cfg.messageSize
    ensures var t := Received(cfg, Received(cfg, s, cfg.messageSize, good), badLen, bad);
      Drained(cfg, t).out == s.out + [Reply(cfg.controllerAddress, Error),
                                      SetColor(good.colorLeft, good.colorRight),
                                      SetAllSpeed(good.speeds)]
  {
  }

  // ---------------------------------------------------------------------------
  // Sequences of events

  /** True when some arrival among the events had the right size. */
  predicate AnyAccepted(cfg: Config, events: seq<Event>)
  {
    exists i :: 0 <= i < |events| && events[i].Arrival? && events[i].len == cfg.messageSize
  }

  /** The payload of the last correctly sized arrival, or the initial one. */
  function LastAccepted(cfg: Config, initial: Message, events: seq<Event>): Message
    decreases |events|
  {
    if events == [] then initial
    else
      var e := events[|events| - 1];
      if e.Arrival? && e.len == cfg.messageSize then e.msg
      else LastAccepted(cfg, initial, events[..|events| - 1])
  }

  /** The connected flag is a latch: it is set exactly when some correctly sized
      datagram has arrived, and never reset. */
  lemma {:induction false} ConnectedLatches(cfg: Config, s: Sketch, events: seq<Event>)
    ensures Run(cfg, s, events).connected <==> s.connected || AnyAccepted(cfg, events)
    decreases |events|
  {
    if events != [] {
      var p := events[..|events| - 1];
      var e := events[|events| - 1];
      ConnectedLatches(cfg, s, p);
      if AnyAccepted(cfg, p) {
        var i :| 0 <= i < |p| && p[i].Arrival? && p[i].len == cfg.messageSize;
        assert events[i] == p[i];
      }
      if AnyAccepted(cfg, events) && !(e.Arrival? && e.len == cfg.messageSize) {
        var i :| 0 <= i < |events| && events[i].Arrival? && events[i].len == cfg.messageSize;
        assert i < |p| && p[i] == events[i];
      }
    }
  }

  /** The stored datagram is always the last correctly sized one: a wrongly sized
      datagram never reaches it. */
  lemma {:induction false} DatagramIsLastAccepted(cfg: Config, s: Sketch, events: seq<Event>)
    ensures Run(cfg, s, events).datagram == LastAccepted(cfg, s.datagram, events)
    decreases |events|
  {
    if events != [] {
      DatagramIsLastAccepted(cfg, s, events[..|events| - 1]);
    }
  }

  /** The output log only grows. */
  lemma {:induction false} OutputOnlyGrows(cfg: Config, s: Sketch, events: seq<Event>)
    ensures |s.out| <= |Run(cfg, s, events).out|
    ensures Run(cfg, s, events).out[..|s.out|] == s.out
    decreases |events|
  {
    if events != [] {
      var p := events[..|events| - 1];
      OutputOnlyGrows(cfg, s, p);
      var u := Run(cfg, s, p);
      var t := Run(cfg, s, events);
      assert t.out[..|u.out|] == u.out;
      assert t.out[..|s.out|] == u.out[..|s.out|];
    }
  }

  /** Whatever happened before, the speeds a pass of loop sends to the actuators are
      those of the last correctly sized datagram: an invalid datagram never changes
      actuator state. */
  lemma ActuatorsGetLastAccepted(cfg: Config, s: Sketch, events: seq<Event>)
    requires Run(cfg, s, events).dataReceived
    ensures var u := Run(cfg, s, events);
      var t := Run(cfg, s, events + [Tick]);
      var m := LastAccepted(cfg, s.datagram, events);
      t.out == u.out + [Reply(cfg.controllerAddress, if u.dataValid then NoErr else Error),
                        SetColor(m.colorLeft, m.colorRight), SetAllSpeed(m.speeds)]
  {
    DatagramIsLastAccepted(cfg, s, events);
    assert (events + [Tick])[..|events|] == events;
  }
}
