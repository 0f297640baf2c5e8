/** What the relay does in a run is determined by the events alone: which datagrams are relayed, where they go, what
    is echoed, where the coroutines stand, and when the channel is torn down. */
module RelayExact {
  import opened Bytes
  import opened Relay
  import opened RelayRuns

  // ----- Where a coroutine goes next -----

  /** A datagram that the uploader has to pass on. */
  predicate UpDue(s: State, e: Event) {
    && s.up.Recv? && Possible(s, e) && e.UpReceived? && e.r.Datagram?
    && |e.r.payload| > 2 && e.r.from.addr == s.src.remote.addr
  }

  /** A datagram that the downloader has to pass on. */
  predicate DownDue(s: State, e: Event) {
    s.down.Recv? && Possible(s, e) && e.DownReceived? && e.r.Datagram? && |e.r.payload| > 2
  }

  /** A datagram that is taken for an authentication. */
  predicate UpGreets(s: State, e: Event) {
    s.up.AuthRecv? && Possible(s, e) && e.UpReceived? && e.r.Datagram? && |e.r.payload| > 0
  }

  predicate DownGreets(s: State, e: Event) {
    s.down.AuthRecv? && Possible(s, e) && e.DownReceived? && e.r.Datagram? && |e.r.payload| > 0
  }

  function UpPlace(s: State): Pc {
    if !s.started then Finished else if s.src.auth then Recv else AuthRecv
  }

  function DownPlace(s: State): Pc {
    if !s.started then Finished else if s.dst.auth then Recv else AuthRecv
  }

  lemma UpAuthNext(s: State, r: Reception)
    requires s.up.AuthRecv? && Possible(s, UpReceived(r))
    ensures var t := UpAuthReceived(s, r);
      if r.Datagram? && |r.payload| > 0 then
        && t.up == AuthEcho(|r.payload|) && t.src.remote == r.from && |t.src.buf| == |s.src.buf|
        && t.src.buf[..|r.payload|] == (if s.dst.auth then r.payload else Zeros(|r.payload|))
      else
        && t.up == UpPlace(t) && t.src.buf == s.src.buf
        && t.src.remote == (if r.Datagram? then r.from else s.src.remote)
  {
    hide Begin;
  }

  lemma UpDataNext(s: State, r: Reception)
    requires s.up.Recv? && s.src.auth && Possible(s, UpReceived(r))
    ensures var t := UpDataReceived(s, r);
      && t.up == (if UpDue(s, UpReceived(r)) then Send(|r.payload|) else UpPlace(t))
      && t.src.remote == (if r.Datagram? && |r.payload| > 0 && r.from.addr == s.src.remote.addr then r.from
                          else s.src.remote)
  {
    hide Store, Begin, Accept;
  }

  lemma UpSentNext(s: State, n: nat, ok: bool)
    ensures s.up.AuthEcho? ==> var t := UpEchoed(s, ok); t.up == UpPlace(t) && t.src.remote == s.src.remote
    ensures s.up.Send? && s.src.auth ==>
              var t := UpRelayed(s, n, ok); t.up == UpPlace(t) && t.src.remote == s.src.remote
  {
    hide Complete;
  }

  /** After each of its events the uploader sends what it has to send, echoes what it has to echo, and otherwise waits
      for the next datagram, as long as the channel is started. */
  lemma UpNext(s: State, e: Event)
    requires AuthInv(s) && UpEvent(e) && Possible(s, e)
    ensures var t := Step(s, e);
      t.up == if UpDue(s, e) then Send(|e.r.payload|)
              else if UpGreets(s, e) then AuthEcho(|e.r.payload|) else UpPlace(t)
  {
    hide UpAuthReceived, UpDataReceived, UpEchoed, UpRelayed;
    match e {
      case UpReceived(r) =>
        if s.up.AuthRecv? {
          UpAuthNext(s, r);
        } else {
          UpDataNext(s, r);
        }
      case UpSent(ok) => UpSentNext(s, if s.up.Send? then s.up.n else 0, ok);
      case UpResume =>
    }
  }

  lemma DownAuthNext(s: State, r: Reception)
    requires s.down.AuthRecv? && Possible(s, DownReceived(r))
    ensures var t := DownAuthReceived(s, r);
      if r.Datagram? && |r.payload| > 0 then
        && t.down == AuthEcho(|r.payload|) && t.dst.auth && |t.dst.buf| == |s.dst.buf|
        && t.dst.buf[..|r.payload|] == r.payload
      else t.down == DownPlace(t) && t.dst.auth == s.dst.auth && t.dst.buf == s.dst.buf
  {
    hide Begin;
  }

  lemma DownDataNext(s: State, r: Reception)
    requires s.down.Recv? && s.dst.auth && Possible(s, DownReceived(r))
    ensures var t := DownDataReceived(s, r);
      t.dst.auth && t.down == (if DownDue(s, DownReceived(r)) then Send(|r.payload|) else DownPlace(t))
  {
    hide Store, Begin, Accept;
  }

  lemma DownSentNext(s: State, n: nat, ok: bool, reopens: bool)
    requires s.dst.auth
    ensures var t := DownEchoed(s, ok, reopens); t.dst.auth && t.down == DownPlace(t)
    ensures var t := DownRelayed(s, n, ok); t.dst.auth && t.down == DownPlace(t)
  {
    hide Complete;
  }

  lemma DownNext(s: State, e: Event)
    requires AuthInv(s) && DownEvent(e) && Possible(s, e)
    ensures var t := Step(s, e);
      t.down == if DownDue(s, e) then Send(|e.r.payload|)
                else if DownGreets(s, e) then AuthEcho(|e.r.payload|) else DownPlace(t)
    ensures Step(s, e).dst.auth <==> s.dst.auth || DownGreets(s, e)
  {
    hide DownAuthReceived, DownDataReceived, DownEchoed, DownRelayed;
    match e {
      case DownReceived(r) =>
        if s.down.AuthRecv? {
          DownAuthNext(s, r);
        } else {
          DownDataNext(s, r);
        }
      case DownSent(ok, reopens) => DownSentNext(s, if s.down.Send? then s.down.n else 0, ok, reopens);
      case DownResume(_) =>
    }
  }

  // ----- What is relayed -----

  /** The datagrams that a run gives the uploader to pass on. */
  function Uploads(init: State, events: seq<Event>): seq<Arrival> {
    if events == [] then []
    else
      var before, e := events[..|events| - 1], events[|events| - 1];
      Uploads(init, before)
      + if UpDue(After(init, before), e) then [Arrival(e.r.payload, e.r.from, |before|)] else []
  }

  function Downloads(init: State, events: seq<Event>): seq<Arrival> {
    if events == [] then []
    else
      var before, e := events[..|events| - 1], events[|events| - 1];
      Downloads(init, before)
      + if DownDue(After(init, before), e) then [Arrival(e.r.payload, e.r.from, |before|)] else []
  }

  lemma UpDataTakes(s: State, r: Reception)
    requires s.up.Recv? && Possible(s, UpReceived(r))
    ensures UpDataReceived(s, r).upFlow.accepted
         == s.upFlow.accepted + if UpDue(s, UpReceived(r)) then [Arrival(r.payload, r.from, s.clock)] else []
  {
    hide Store;
    assert s.upFlow.accepted + [] == s.upFlow.accepted;
  }

  lemma UpAuthTakes(s: State, r: Reception)
    requires r.Datagram? ==> |r.payload| <= |s.src.buf|
    ensures UpAuthReceived(s, r).upFlow.accepted == s.upFlow.accepted
  {
    hide Store, Zeros;
  }

  lemma UpSentTakes(s: State, n: nat, ok: bool)
    ensures UpEchoed(s, ok).upFlow.accepted == s.upFlow.accepted
    ensures UpRelayed(s, n, ok).upFlow.accepted == s.upFlow.accepted
  {
  }

  lemma StepTakesUp(s: State, e: Event)
    ensures Step(s, e).upFlow.accepted
         == s.upFlow.accepted + if UpDue(s, e) then [Arrival(e.r.payload, e.r.from, s.clock)] else []
  {
    assert s.upFlow.accepted + [] == s.upFlow.accepted;
    if !UpEvent(e) {
      hide Step;
      OthersLeaveUp(s, e);
    } else if Possible(s, e) {
      hide UpAuthReceived, UpDataReceived, UpEchoed, UpRelayed;
      match e {
        case UpReceived(r) =>
          if s.up.Recv? {
            UpDataTakes(s, r);
          } else {
            UpAuthTakes(s, r);
          }
        case UpSent(ok) => UpSentTakes(s, if s.up.Send? then s.up.n else 0, ok);
        case UpResume =>
      }
    }
  }

  lemma StepTakesDown(s: State, e: Event)
    ensures Step(s, e).downFlow.accepted
         == s.downFlow.accepted + if DownDue(s, e) then [Arrival(e.r.payload, e.r.from, s.clock)] else []
  {
    assert s.downFlow.accepted + [] == s.downFlow.accepted;
    if !DownEvent(e) {
      hide Step;
      OthersLeaveDown(s, e);
    } else if Possible(s, e) {
      hide DownAuthReceived, DownDataReceived, DownEchoed, DownRelayed;
      match e {
        case DownReceived(r) =>
          if s.down.Recv? {
            DownDataAccepts(s, r);
          } else {
            DownAuthAccepts(s, r);
          }
        case DownSent(ok, reopens) => DownSentAccepts(s, if s.down.Send? then s.down.n else 0, ok, reopens);
        case DownResume(_) =>
      }
    }
  }

  lemma {:induction false} ClockCounts(init: State, events: seq<Event>)
    requires IsStart(init)
    ensures After(init, events).clock == |events|
  {
    if events != [] {
      ClockCounts(init, events[..|events| - 1]);
    }
  }

  /** Nothing is dropped and nothing is added: what either coroutine accepts for relaying is exactly what the run
      gives it to pass on - every datagram of more than two bytes that arrives while it receives, upwards from the
      source's address only. */
  lemma {:induction false} AcceptedExactly(init: State, events: seq<Event>)
    requires IsStart(init)
    ensures After(init, events).upFlow.accepted == Uploads(init, events)
    ensures After(init, events).downFlow.accepted == Downloads(init, events)
    decreases |events|
  {
    hide Step, UpDue, DownDue;
    if events != [] {
      var before, e := events[..|events| - 1], events[|events| - 1];
      AcceptedExactly(init, before);
      ClockCounts(init, before);
      StepTakesUp(After(init, before), e);
      StepTakesDown(After(init, before), e);
    }
  }

  // ----- The source's endpoint, the echoes, the destination's authentication -----

  /** Where the source's last datagram came from: while it authenticates, any; later, any from the same address. */
  function LastSender(init: State, events: seq<Event>): Endpoint {
    if events == [] then init.src.remote
    else
      var before, e := events[..|events| - 1], events[|events| - 1];
      var s, p := After(init, before), LastSender(init, before);
      if !e.UpReceived? || !Possible(s, e) || e.r.Failed? then p
      else if s.up.AuthRecv? || (|e.r.payload| > 0 && e.r.from.addr == p.addr) then e.r.from
      else p
  }

  /** The bytes of the last authentication as they are echoed: the datagram itself if the destination was
      authenticated by then, and as many zeros otherwise. */
  function LastEcho(init: State, events: seq<Event>): seq<byte> {
    if events == [] then []
    else
      var before, e := events[..|events| - 1], events[|events| - 1];
      var s := After(init, before);
      if UpGreets(s, e) then (if s.dst.auth then e.r.payload else Zeros(|e.r.payload|)) else LastEcho(init, before)
  }

  /** The destination's last authentication is echoed as it is. */
  function LastDstEcho(init: State, events: seq<Event>): seq<byte> {
    if events == [] then []
    else
      var before, e := events[..|events| - 1], events[|events| - 1];
      if DownGreets(After(init, before), e) then e.r.payload else LastDstEcho(init, before)
  }

  ghost predicate Echoes(pc: Pc, buf: seq<byte>, echo: seq<byte>) {
    pc.AuthEcho? ==> pc.n == |echo| <= |buf| && buf[..pc.n] == echo
  }

  lemma StepHearsSource(s: State, e: Event)
    requires AuthInv(s)
    ensures Step(s, e).src.remote
         == if !e.UpReceived? || !Possible(s, e) || e.r.Failed? then s.src.remote
            else if s.up.AuthRecv? || (|e.r.payload| > 0 && e.r.from.addr == s.src.remote.addr) then e.r.from
            else s.src.remote
  {
    if !UpEvent(e) {
      hide Step, AuthInv;
      OthersLeaveUp(s, e);
    } else if Possible(s, e) {
      hide UpAuthReceived, UpDataReceived, UpEchoed, UpRelayed;
      match e {
        case UpReceived(r) =>
          if s.up.AuthRecv? {
            UpAuthNext(s, r);
          } else {
            UpDataNext(s, r);
          }
        case UpSent(ok) => UpSentNext(s, if s.up.Send? then s.up.n else 0, ok);
        case UpResume =>
      }
    }
  }

  lemma StepEchoesUp(s: State, e: Event, echo: seq<byte>)
    requires AuthInv(s) && Echoes(s.up, s.src.buf, echo)
    ensures Echoes(Step(s, e).up, Step(s, e).src.buf,
                   if UpGreets(s, e) then (if s.dst.auth then e.r.payload else Zeros(|e.r.payload|)) else echo)
  {
    if !UpEvent(e) {
      hide Step, AuthInv;
      OthersLeaveUp(s, e);
    } else if Possible(s, e) {
      UpNext(s, e);
      hide UpAuthReceived, UpDataReceived, UpEchoed, UpRelayed;
      if UpGreets(s, e) {
        UpAuthNext(s, e.r);
      }
    }
  }

  lemma StepEchoesDown(s: State, e: Event, echo: seq<byte>)
    requires AuthInv(s) && Echoes(s.down, s.dst.buf, echo)
    ensures Echoes(Step(s, e).down, Step(s, e).dst.buf, if DownGreets(s, e) then e.r.payload else echo)
  {
    if !DownEvent(e) {
      hide Step, AuthInv;
      OthersLeaveDown(s, e);
    } else if Possible(s, e) {
      DownNext(s, e);
      hide DownAuthReceived, DownDataReceived, DownEchoed, DownRelayed;
      if DownGreets(s, e) {
        DownAuthNext(s, e.r);
      }
    }
  }

  /** In every run the source's endpoint is that of its last sender, and what is being echoed on either side is what
      the run says has to be echoed. */
  lemma {:induction false} EndpointAndEchoes(init: State, events: seq<Event>)
    requires IsStart(init)
    ensures var s := After(init, events);
      && s.src.remote == LastSender(init, events)
      && Echoes(s.up, s.src.buf, LastEcho(init, events)) && Echoes(s.down, s.dst.buf, LastDstEcho(init, events))
    decreases |events|
  {
    hide Step, AuthInv, UpGreets, DownGreets, Echoes, Possible;
    if events == [] {
      NothingEchoed(init);
    } else {
      var before, e := events[..|events| - 1], events[|events| - 1];
      EndpointAndEchoes(init, before);
      AuthHolds(init, before);
      StepHearsSource(After(init, before), e);
      StepEchoesUp(After(init, before), e, LastEcho(init, before));
      StepEchoesDown(After(init, before), e, LastDstEcho(init, before));
    }
  }

  lemma NothingEchoed(init: State)
    requires IsStart(init)
    ensures Echoes(init.up, init.src.buf, []) && Echoes(init.down, init.dst.buf, [])
  {
  }

  ghost predicate Greeted(init: State, events: seq<Event>) {
    exists i :: 0 <= i < |events| && GreetedAt(init, events, i)
  }

  ghost predicate GreetedAt(init: State, events: seq<Event>, i: nat)
    requires i < |events|
  {
    DownGreets(After(init, events[..i]), events[i])
  }

  lemma GreetedSnoc(init: State, events: seq<Event>, e: Event)
    ensures Greeted(init, events + [e]) <==> Greeted(init, events) || DownGreets(After(init, events), e)
  {
    hide DownGreets, After;
    var all := events + [e];
    assert all[..|events|] == events;
    forall i | 0 <= i < |events|
      ensures GreetedAt(init, all, i) <==> GreetedAt(init, events, i)
    {
      assert all[..i] == events[..i];
    }
    if Greeted(init, events) {
      var i :| 0 <= i < |events| && GreetedAt(init, events, i);
      assert GreetedAt(init, all, i);
    }
    if DownGreets(After(init, events), e) {
      assert GreetedAt(init, all, |events|);
    }
  }

  lemma StepGreets(s: State, e: Event)
    requires AuthInv(s)
    ensures Step(s, e).dst.auth <==> s.dst.auth || DownGreets(s, e)
  {
    if !DownEvent(e) {
      hide Step, AuthInv;
      OthersLeaveDown(s, e);
    } else if Possible(s, e) {
      DownNext(s, e);
    }
  }

  /** The destination is authenticated exactly from the first non-empty datagram it is sent while authenticating. */
  lemma {:induction false} DstAuthExact(init: State, events: seq<Event>)
    requires IsStart(init)
    ensures After(init, events).dst.auth <==> Greeted(init, events)
    decreases |events|
  {
    hide Step, AuthInv, DownGreets, Greeted;
    if events == [] {
      NobodyGreeted(init, events);
    } else {
      var before, e := events[..|events| - 1], events[|events| - 1];
      assert events == before + [e];
      DstAuthExact(init, before);
      AuthHolds(init, before);
      GreetedSnoc(init, before, e);
      StepGreets(After(init, before), e);
    }
  }

  lemma NobodyGreeted(init: State, events: seq<Event>)
    requires events == []
    ensures !Greeted(init, events)
  {
  }

  // ----- When the channel is torn down -----

  predicate Fails(r: Reception) {
    r.Failed? || |r.payload| == 0
  }

  /** A posted stop request, or an operation that fails on a closed socket. */
  predicate Ends(s: State, e: Event) {
    && Possible(s, e)
    && match e
       case ToStop => true
       case UpReceived(r) => Fails(r) && !s.src.isOpen
       case UpSent(ok) => !ok && !(if s.up.AuthEcho? then s.src.isOpen else s.dst.isOpen)
       case DownReceived(r) => Fails(r) && !s.dst.isOpen
       case DownSent(ok, _) => !ok && !(if s.down.AuthEcho? then s.dst.isOpen else s.src.isOpen)
       case _ => false
  }

  lemma UpReceptionEnds(s: State, r: Reception)
    requires r.Datagram? ==> |r.payload| <= |s.src.buf|
    ensures UpAuthReceived(s, r).started == (s.started && !(Fails(r) && !s.src.isOpen))
    ensures UpDataReceived(s, r).started == (s.started && !(Fails(r) && !s.src.isOpen))
  {
    hide Store, Zeros, Begin, Accept;
  }

  lemma UpSendEnds(s: State, n: nat, ok: bool)
    ensures UpEchoed(s, ok).started == (s.started && (ok || s.src.isOpen))
    ensures UpRelayed(s, n, ok).started == (s.started && (ok || s.dst.isOpen))
  {
    hide Complete;
  }

  lemma DownReceptionEnds(s: State, r: Reception)
    requires r.Datagram? ==> |r.payload| <= |s.dst.buf|
    ensures DownAuthReceived(s, r).started == (s.started && !(Fails(r) && !s.dst.isOpen))
    ensures DownDataReceived(s, r).started == (s.started && !(Fails(r) && !s.dst.isOpen))
  {
    hide Store, Zeros, Begin, Accept;
  }

  lemma DownSendEnds(s: State, n: nat, ok: bool, reopens: bool)
    ensures DownEchoed(s, ok, reopens).started == (s.started && (ok || s.dst.isOpen))
    ensures DownRelayed(s, n, ok).started == (s.started && (ok || s.src.isOpen))
  {
    hide Complete;
  }

  lemma StepEnds(s: State, e: Event)
    ensures Step(s, e).started <==> s.started && !Ends(s, e)
  {
    if Possible(s, e) {
      hide UpAuthReceived, UpDataReceived, UpEchoed, UpRelayed;
      hide DownAuthReceived, DownDataReceived, DownEchoed, DownRelayed, Fails;
      match e {
        case UpReceived(r) => UpReceptionEnds(s, r);
        case UpSent(ok) => UpSendEnds(s, if s.up.Send? then s.up.n else 0, ok);
        case DownReceived(r) => DownReceptionEnds(s, r);
        case DownSent(ok, reopens) => DownSendEnds(s, if s.down.Send? then s.down.n else 0, ok, reopens);
        case _ =>
      }
    }
  }

  ghost predicate EndedAt(init: State, events: seq<Event>, i: nat)
    requires i < |events|
  {
    Ends(After(init, events[..i]), events[i])
  }

  ghost predicate Ended(init: State, events: seq<Event>) {
    exists i :: 0 <= i < |events| && EndedAt(init, events, i)
  }

  lemma EndedSnoc(init: State, events: seq<Event>, e: Event)
    ensures Ended(init, events + [e]) <==> Ended(init, events) || Ends(After(init, events), e)
  {
    hide Ends, After;
    var all := events + [e];
    assert all[..|events|] == events;
    forall i | 0 <= i < |events|
      ensures EndedAt(init, all, i) <==> EndedAt(init, events, i)
    {
      assert all[..i] == events[..i];
    }
    if Ended(init, events) {
      var i :| 0 <= i < |events| && EndedAt(init, events, i);
      assert EndedAt(init, all, i);
    }
    if Ends(After(init, events), e) {
      assert EndedAt(init, all, |events|);
    }
  }

  /** A channel is torn down exactly when a stop request has been served or an operation has failed on a closed
      socket, and not before. */
  lemma {:induction false} TornDownExactly(init: State, events: seq<Event>)
    requires IsStart(init)
    ensures After(init, events).started <==> !Ended(init, events)
    decreases |events|
  {
    hide Step, Ends, Ended;
    if events == [] {
      NotEnded(init, events);
    } else {
      var before, e := events[..|events| - 1], events[|events| - 1];
      assert events == before + [e];
      TornDownExactly(init, before);
      EndedSnoc(init, before, e);
      StepEnds(After(init, before), e);
    }
  }

  lemma NotEnded(init: State, events: seq<Event>)
    requires events == []
    ensures !Ended(init, events)
  {
  }

  // ----- What an end loses -----

  /** While the channel is started, an end expires or its session goes. */
  predicate Loses(s: State, e: Event, source: bool) {
    s.started && (e == Expire(source) || e == OwnerGone(source))
  }

  ghost predicate LostAt(init: State, events: seq<Event>, source: bool, i: nat)
    requires i < |events|
  {
    Loses(After(init, events[..i]), events[i], source)
  }

  ghost predicate Lost(init: State, events: seq<Event>, source: bool) {
    exists i :: 0 <= i < |events| && LostAt(init, events, source, i)
  }

  ghost predicate Expired(events: seq<Event>, source: bool) {
    exists i :: 0 <= i < |events| && events[i] == Expire(source)
  }

  lemma LostSnoc(init: State, events: seq<Event>, e: Event, source: bool)
    ensures Lost(init, events + [e], source) <==> Lost(init, events, source) || Loses(After(init, events), e, source)
    ensures Expired(events + [e], source) <==> Expired(events, source) || e == Expire(source)
  {
    hide Loses, After;
    var all := events + [e];
    assert all[..|events|] == events && all[|events|] == e;
    forall i | 0 <= i < |events|
      ensures LostAt(init, all, source, i) <==> LostAt(init, events, source, i)
    {
      assert all[..i] == events[..i];
    }
    if Lost(init, events, source) {
      var i :| 0 <= i < |events| && LostAt(init, events, source, i);
      assert LostAt(init, all, source, i);
    }
    if Loses(After(init, events), e, source) {
      assert LostAt(init, all, source, |events|);
    }
    if Expired(events, source) {
      var i :| 0 <= i < |events| && events[i] == Expire(source);
      assert all[i] == Expire(source);
    }
  }

  /** No handler loses a session or reopens or closes the source socket, but for the teardown. */
  predicate KeepsSource(s: State, t: State) {
    && t.srcLost == s.srcLost && t.dstLost == s.dstLost
    && t.src.isOpen == (s.src.isOpen && (t.started || !s.started))
  }

  lemma UpAuthKeepsSource(s: State, r: Reception)
    requires r.Datagram? ==> |r.payload| <= |s.src.buf|
    ensures KeepsSource(s, UpAuthReceived(s, r))
  {
    hide Store, Zeros, Begin;
  }

  lemma UpDataKeepsSource(s: State, r: Reception)
    requires r.Datagram? ==> |r.payload| <= |s.src.buf|
    ensures KeepsSource(s, UpDataReceived(s, r))
  {
    hide Store, Begin, Accept;
  }

  lemma UpSendKeepsSource(s: State, n: nat, ok: bool)
    ensures KeepsSource(s, UpEchoed(s, ok)) && KeepsSource(s, UpRelayed(s, n, ok))
  {
    hide Complete;
  }

  lemma DownKeepsSource(s: State, r: Reception)
    requires r.Datagram? ==> |r.payload| <= |s.dst.buf|
    ensures KeepsSource(s, DownAuthReceived(s, r)) && KeepsSource(s, DownDataReceived(s, r))
  {
    hide Store, Begin, Accept;
  }

  lemma DownSendKeepsSource(s: State, n: nat, ok: bool, reopens: bool)
    ensures KeepsSource(s, DownEchoed(s, ok, reopens)) && KeepsSource(s, DownRelayed(s, n, ok))
  {
    hide Complete;
  }

  lemma HandlerKeepsSource(s: State, e: Event)
    requires Possible(s, e) && !e.Expire? && !e.OwnerGone?
    ensures KeepsSource(s, Act(s, e))
  {
    hide UpAuthReceived, UpDataReceived, UpEchoed, UpRelayed;
    hide DownAuthReceived, DownDataReceived, DownEchoed, DownRelayed;
    match e {
      case UpReceived(r) =>
        UpAuthKeepsSource(s, r);
        UpDataKeepsSource(s, r);
      case UpSent(ok) => UpSendKeepsSource(s, if s.up.Send? then s.up.n else 0, ok);
      case DownReceived(r) => DownKeepsSource(s, r);
      case DownSent(ok, reopens) => DownSendKeepsSource(s, if s.down.Send? then s.down.n else 0, ok, reopens);
      case _ =>
    }
  }

  lemma StepLoses(s: State, e: Event)
    ensures var t := Step(s, e);
      && (t.srcLost <==> s.srcLost || Loses(s, e, true)) && (t.dstLost <==> s.dstLost || Loses(s, e, false))
      && (t.src.isOpen <==> s.src.isOpen && e != Expire(true) && (t.started || !s.started))
  {
    if Possible(s, e) && !e.Expire? && !e.OwnerGone? {
      hide Act;
      HandlerKeepsSource(s, e);
    }
  }

  /** In every run: an end has lost its session exactly if it expired or the session went while the channel was
      started, and the source socket is open exactly until it expires or the channel is torn down. */
  lemma {:induction false} LossesExactly(init: State, events: seq<Event>)
    requires IsStart(init)
    ensures var s := After(init, events);
      && (s.srcLost <==> Lost(init, events, true)) && (s.dstLost <==> Lost(init, events, false))
      && (s.src.isOpen <==> s.started && !Expired(events, true))
    decreases |events|
  {
    hide Step, Loses, Lost, Expired;
    if events == [] {
      NothingLost(init, events);
    } else {
      var before, e := events[..|events| - 1], events[|events| - 1];
      assert events == before + [e];
      LossesExactly(init, before);
      LostSnoc(init, before, e, true);
      LostSnoc(init, before, e, false);
      StepLoses(After(init, before), e);
      StepEnds(After(init, before), e);
      TeardownOnce(init, before);
    }
  }

  lemma NothingLost(init: State, events: seq<Event>)
    requires events == []
    ensures !Lost(init, events, true) && !Lost(init, events, false) && !Expired(events, true)
  {
  }
}
