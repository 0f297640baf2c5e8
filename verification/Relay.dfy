/** The UDP relay of a started channel: an uploader and a downloader that interleave wherever they await. */
module Relay {
  import opened Bytes
  import opened Numbers

  datatype Endpoint = Endpoint(addr: int, port: int)

  /** What a receive completes with; a datagram never exceeds the buffer it is read into. */
  datatype Reception = Failed | Datagram(payload: seq<byte>, from: Endpoint)

  /** Where a coroutine is suspended; the argument of the sending states is the number of bytes being sent. */
  datatype Pc = Ready | AuthRecv | AuthEcho(n: nat) | Recv | Send(n: nat) | Finished

  datatype End = End(auth: bool, isOpen: bool, owned: bool, remote: Endpoint, buf: seq<byte>)

  /** A datagram accepted for relaying, and the position of its reception in the run. */
  datatype Arrival = Arrival(payload: seq<byte>, from: Endpoint, at: nat)

  /** One direction: the program's two counters, then what happened: the accepted datagrams, how the sends
      that have completed ended, the payloads sent, and the sends begun after the channel was stopped. */
  datatype Flow = Flow(
    bytes: int,
    packs: int,
    accepted: seq<Arrival>,
    outcomes: seq<bool>,
    sent: seq<seq<byte>>,
    late: nat)

  const IDLE_FLOW := Flow(0, 0, [], [], [], 0)

  /** `pinned` is the address from which the source was last authenticated.  `stops` counts runs of the teardown,
      `srcStops` and `dstStops` the STOPPROXY messages, `srcLost` and `dstLost` say whether an end had lost its
      session before the teardown, `downTo` lists where the datagrams accepted for download are sent, and `clock`
      counts the steps of the run. */
  datatype State = State(
    started: bool,
    src: End,
    dst: End,
    pinned: int,
    up: Pc,
    down: Pc,
    upFlow: Flow,
    downFlow: Flow,
    downTo: seq<Endpoint>,
    stops: nat,
    srcStops: nat,
    dstStops: nat,
    srcLost: bool,
    dstLost: bool,
    clock: nat)

  /** A channel right after `start`: the TCP peer addresses are known, the UDP ports are not. */
  function Start(srcAddr: int, dstAddr: int, srcBuf: seq<byte>, dstBuf: seq<byte>): State {
    State(true,
          End(false, true, true, Endpoint(srcAddr, 0), srcBuf), End(false, true, true, Endpoint(dstAddr, 0), dstBuf),
          0, Ready, Ready, IDLE_FLOW, IDLE_FLOW, [], 0, 0, 0, false, false, 0)
  }

  /** `reopens` says whether connecting the destination socket, should that come next and find it closed, opens it
      again. */
  datatype Event =
    | UpResume
    | UpReceived(r: Reception)
    | UpSent(ok: bool)
    | DownResume(reopens: bool)
    | DownReceived(r: Reception)
    | DownSent(ok: bool, reopens: bool)
    | ToStop
    | Expire(source: bool)
    | OwnerGone(source: bool)

  function Store(buf: seq<byte>, payload: seq<byte>): seq<byte>
    requires |payload| <= |buf|
  {
    payload + buf[|payload|..]
  }

  function Zeros(n: nat): seq<byte> {
    seq(n, _ => 0)
  }

  function Close(e: End): End {
    e.(isOpen := false, owned := false)
  }

  /** `CChannel::stop`. */
  function Stop(s: State): State {
    if !s.started then s
    else
      s.(started := false, stops := s.stops + 1,
         srcStops := s.srcStops + if s.src.owned then 1 else 0,
         dstStops := s.dstStops + if s.dst.owned then 1 else 0,
         src := Close(s.src), dst := Close(s.dst))
  }

  function StopUnless(s: State, isOpen: bool): State {
    if isOpen then s else Stop(s)
  }

  function Begin(f: Flow, started: bool): Flow {
    if started then f else f.(late := f.late + 1)
  }

  function Accept(f: Flow, payload: seq<byte>, from: Endpoint, at: nat): Flow {
    f.(accepted := f.accepted + [Arrival(payload, from, at)])
  }

  function Complete(f: Flow, ok: bool, payload: seq<byte>): Flow {
    var g := f.(outcomes := f.outcomes + [ok]);
    if ok then g.(bytes := (f.bytes + |payload|) % UINT64, packs := (f.packs + 1) % UINT64, sent := f.sent + [payload])
    else g
  }

  // ----- The uploader -----

  function UpMain(s: State): State {
    s.(up := if s.started then Recv else Finished)
  }

  function UpAuth(s: State): State {
    if s.started && !s.src.auth then s.(up := AuthRecv) else UpMain(s)
  }

  /** The authentication failed for good if the socket is gone. */
  function UpRetry(s: State): State {
    if s.src.isOpen then UpAuth(s) else Stop(s).(up := Finished)
  }

  function UpAuthReceived(s: State, r: Reception): State
    requires r.Datagram? ==> |r.payload| <= |s.src.buf|
  {
    if r.Failed? then UpRetry(s)
    else if r.payload == [] then UpRetry(s.(src := s.src.(remote := r.from)))
    else
      var src := s.src.(remote := r.from, buf := Store(s.src.buf, r.payload));
      var t := s.(up := AuthEcho(|r.payload|), upFlow := Begin(s.upFlow, s.started));
      if s.dst.auth then t.(src := src.(auth := true), pinned := r.from.addr)
      else t.(src := src.(buf := Zeros(|src.buf|)))
  }

  /** The sender's port may change, its address may not; two bytes or less are a heartbeat. */
  function UpDataReceived(s: State, r: Reception): State
    requires r.Datagram? ==> |r.payload| <= |s.src.buf|
  {
    if r.Failed? || r.payload == [] then UpMain(StopUnless(s, s.src.isOpen))
    else
      var t := s.(src := s.src.(buf := Store(s.src.buf, r.payload)));
      if r.from.addr != s.src.remote.addr then UpMain(t)
      else
        var u := t.(src := t.src.(remote := r.from));
        if |r.payload| <= 2 then UpMain(u)
        else u.(up := Send(|r.payload|), upFlow := Begin(Accept(s.upFlow, r.payload, r.from, s.clock), s.started))
  }

  function UpEchoed(s: State, ok: bool): State {
    if ok then UpAuth(s) else UpRetry(s.(src := s.src.(auth := false)))
  }

  function UpRelayed(s: State, n: nat, ok: bool): State {
    var t := s.(upFlow := Complete(s.upFlow, ok, if n <= |s.src.buf| then s.src.buf[..n] else []));
    if ok then UpMain(t) else UpMain(StopUnless(t, s.dst.isOpen))
  }

  // ----- The downloader -----

  function DownMain(s: State): State {
    s.(down := if s.started then Recv else Finished)
  }

  /** Connecting opens a closed socket, if the system can open one. */
  function Connect(s: State, reopens: bool): State {
    if s.dst.isOpen then s else s.(dst := s.dst.(isOpen := reopens))
  }

  /** The way from authentication to the main loop leads through the connect, even when the channel has been
      stopped in the meantime. */
  function DownAuth(s: State, reopens: bool): State {
    if s.started && !s.dst.auth then s.(down := AuthRecv)
    else DownMain(Connect(s, reopens))
  }

  /** Only an open socket gets from here to the connect. */
  function DownRetry(s: State): State {
    if s.dst.isOpen then DownAuth(s, false) else Stop(s).(down := Finished)
  }

  function DownAuthReceived(s: State, r: Reception): State
    requires r.Datagram? ==> |r.payload| <= |s.dst.buf|
  {
    if r.Failed? then DownRetry(s)
    else if r.payload == [] then DownRetry(s.(dst := s.dst.(remote := r.from)))
    else
      s.(down := AuthEcho(|r.payload|), downFlow := Begin(s.downFlow, s.started),
         dst := s.dst.(remote := r.from, buf := Store(s.dst.buf, r.payload), auth := true))
  }

  function DownDataReceived(s: State, r: Reception): State
    requires r.Datagram? ==> |r.payload| <= |s.dst.buf|
  {
    if r.Failed? || r.payload == [] then DownMain(StopUnless(s, s.dst.isOpen))
    else
      var t := s.(dst := s.dst.(buf := Store(s.dst.buf, r.payload)));
      if |r.payload| <= 2 then DownMain(t)
      else
        t.(down := Send(|r.payload|), downTo := s.downTo + [s.src.remote],
           downFlow := Begin(Accept(s.downFlow, r.payload, r.from, s.clock), s.started))
  }

  /** A failed echo does not take the authentication back on this side. */
  function DownEchoed(s: State, ok: bool, reopens: bool): State {
    if ok then DownAuth(s, reopens) else DownRetry(s)
  }

  function DownRelayed(s: State, n: nat, ok: bool): State {
    var t := s.(downFlow := Complete(s.downFlow, ok, if n <= |s.dst.buf| then s.dst.buf[..n] else []));
    if ok then DownMain(t) else DownMain(StopUnless(t, s.src.isOpen))
  }

  // ----- Runs -----

  /** Completions arrive only for operations in progress, and a datagram fits the buffer. */
  predicate Possible(s: State, e: Event) {
    match e
    case UpResume => s.up.Ready?
    case DownResume(_) => s.down.Ready?
    case UpReceived(r) => (s.up.AuthRecv? || s.up.Recv?) && (r.Datagram? ==> |r.payload| <= |s.src.buf|)
    case DownReceived(r) => (s.down.AuthRecv? || s.down.Recv?) && (r.Datagram? ==> |r.payload| <= |s.dst.buf|)
    case UpSent(_) => s.up.AuthEcho? || s.up.Send?
    case DownSent(_, _) => s.down.AuthEcho? || s.down.Send?
    case _ => true
  }

  function Lose(s: State, source: bool, e: End): State {
    if source then s.(src := e, srcLost := s.srcLost || s.started) else s.(dst := e, dstLost := s.dstLost || s.started)
  }

  function Act(s: State, e: Event): State
    requires Possible(s, e)
  {
    match e
    case UpResume => UpAuth(s)
    case UpReceived(r) => if s.up.AuthRecv? then UpAuthReceived(s, r) else UpDataReceived(s, r)
    case UpSent(ok) => if s.up.AuthEcho? then UpEchoed(s, ok) else UpRelayed(s, s.up.n, ok)
    case DownResume(reopens) => DownAuth(s, reopens)
    case DownReceived(r) => if s.down.AuthRecv? then DownAuthReceived(s, r) else DownDataReceived(s, r)
    case DownSent(ok, reopens) =>
      if s.down.AuthEcho? then DownEchoed(s, ok, reopens) else DownRelayed(s, s.down.n, ok)
    case ToStop => Stop(s)
    case Expire(source) => Lose(s, source, Close(if source then s.src else s.dst))
    case OwnerGone(source) => Lose(s, source, (if source then s.src else s.dst).(owned := false))
  }

  function Step(s: State, e: Event): State {
    (if Possible(s, e) then Act(s, e) else s).(clock := s.clock + 1)
  }

  /** Which code a completion resumes. */
  lemma UpHandlers(s: State, r: Reception, ok: bool)
    ensures Possible(s, UpReceived(r)) && s.up.AuthRecv? ==> Act(s, UpReceived(r)) == UpAuthReceived(s, r)
    ensures Possible(s, UpReceived(r)) && s.up.Recv? ==> Act(s, UpReceived(r)) == UpDataReceived(s, r)
    ensures s.up.AuthEcho? ==> Possible(s, UpSent(ok)) && Act(s, UpSent(ok)) == UpEchoed(s, ok)
    ensures s.up.Send? ==> Possible(s, UpSent(ok)) && Act(s, UpSent(ok)) == UpRelayed(s, s.up.n, ok)
  {
    hide UpAuthReceived, UpDataReceived, UpEchoed, UpRelayed;
  }

  lemma DownHandlers(s: State, r: Reception, ok: bool, reopens: bool)
    ensures Possible(s, DownReceived(r)) && s.down.AuthRecv? ==> Act(s, DownReceived(r)) == DownAuthReceived(s, r)
    ensures Possible(s, DownReceived(r)) && s.down.Recv? ==> Act(s, DownReceived(r)) == DownDataReceived(s, r)
    ensures var e := DownSent(ok, reopens);
      && (s.down.AuthEcho? ==> Possible(s, e) && Act(s, e) == DownEchoed(s, ok, reopens))
      && (s.down.Send? ==> Possible(s, e) && Act(s, e) == DownRelayed(s, s.down.n, ok))
  {
    hide DownAuthReceived, DownDataReceived, DownEchoed, DownRelayed;
  }

  function After(init: State, events: seq<Event>): State {
    if events == [] then init else Step(After(init, events[..|events| - 1]), events[|events| - 1])
  }

  // ----- Authentication and teardown -----

  ghost predicate AuthInv(s: State) {
    && (s.src.auth ==> s.dst.auth && s.src.remote.addr == s.pinned)
    && (s.up.AuthRecv? ==> !s.src.auth)
    && (s.up.Recv? || s.up.Send? ==> s.src.auth)
    && (s.down.Recv? || s.down.AuthEcho? || s.down.Send? ==> s.dst.auth)
  }

  /** An end that has not lost its session is told once; the teardown leaves the source closed and both ends
      without a session. */
  ghost predicate StopInv(s: State) {
    && s.stops == (if s.started then 0 else 1)
    && s.srcStops == (if s.started || s.srcLost then 0 else 1)
    && s.dstStops == (if s.started || s.dstLost then 0 else 1)
    && (s.started ==> s.src.owned == !s.srcLost && s.dst.owned == !s.dstLost)
    && (!s.started ==> !s.src.isOpen && !s.src.owned && !s.dst.owned)
  }

  /** All that the teardown looks at or changes, but for the destination socket. */
  predicate SameControl(s: State, t: State) {
    && t.started == s.started && t.stops == s.stops && t.srcStops == s.srcStops && t.dstStops == s.dstStops
    && t.srcLost == s.srcLost && t.dstLost == s.dstLost
    && t.src.isOpen == s.src.isOpen && t.src.owned == s.src.owned
    && t.dst.owned == s.dst.owned
  }

  predicate AtMostStops(s: State, t: State) {
    SameControl(s, t) || SameControl(Stop(s), t)
  }

  lemma UpRetryKeeps(s: State)
    requires AuthInv(s)
    ensures AuthInv(UpRetry(s)) && AtMostStops(s, UpRetry(s))
  {
  }

  lemma UpAuthKeeps(s: State, r: Reception)
    requires AuthInv(s) && s.up.AuthRecv? && Possible(s, UpReceived(r))
    ensures AuthInv(UpAuthReceived(s, r)) && AtMostStops(s, UpAuthReceived(s, r))
  {
    hide UpRetry, Store, Zeros, Begin;
    if r.Failed? {
      UpRetryKeeps(s);
    } else if r.payload == [] {
      UpRetryKeeps(s.(src := s.src.(remote := r.from)));
    }
  }

  lemma UpFailedKeeps(s: State, r: Reception)
    requires AuthInv(s) && s.up.Recv? && (r.Failed? || r.payload == [])
    ensures AuthInv(UpDataReceived(s, r)) && AtMostStops(s, UpDataReceived(s, r))
  {
    hide Store, Accept, Begin;
  }

  lemma UpTakenKeeps(s: State, r: Reception)
    requires AuthInv(s) && s.up.Recv? && r.Datagram? && r.payload != [] && |r.payload| <= |s.src.buf|
    ensures AuthInv(UpDataReceived(s, r)) && SameControl(s, UpDataReceived(s, r))
  {
    hide Store, Accept, Begin, Stop;
  }

  lemma UpDataKeeps(s: State, r: Reception)
    requires AuthInv(s) && s.up.Recv? && Possible(s, UpReceived(r))
    ensures AuthInv(UpDataReceived(s, r)) && AtMostStops(s, UpDataReceived(s, r))
  {
    hide AuthInv, SameControl, UpDataReceived;
    if r.Failed? || r.payload == [] {
      UpFailedKeeps(s, r);
    } else {
      UpTakenKeeps(s, r);
    }
  }

  lemma UpEchoedKeeps(s: State, ok: bool)
    requires AuthInv(s) && s.up.AuthEcho?
    ensures AuthInv(UpEchoed(s, ok)) && AtMostStops(s, UpEchoed(s, ok))
  {
    hide UpRetry;
    UpRetryKeeps(s.(src := s.src.(auth := false)));
  }

  lemma UpRelayedKeeps(s: State, ok: bool)
    requires AuthInv(s) && s.up.Send?
    ensures AuthInv(UpRelayed(s, s.up.n, ok)) && AtMostStops(s, UpRelayed(s, s.up.n, ok))
  {
    hide Complete;
  }

  lemma DownRetryKeeps(s: State)
    requires AuthInv(s)
    ensures AuthInv(DownRetry(s)) && AtMostStops(s, DownRetry(s))
  {
  }

  lemma DownAuthKeeps(s: State, r: Reception)
    requires AuthInv(s) && s.down.AuthRecv? && Possible(s, DownReceived(r))
    ensures AuthInv(DownAuthReceived(s, r)) && AtMostStops(s, DownAuthReceived(s, r))
  {
    hide DownRetry, Store, Zeros, Begin;
    if r.Failed? {
      DownRetryKeeps(s);
    } else if r.payload == [] {
      DownRetryKeeps(s.(dst := s.dst.(remote := r.from)));
    }
  }

  lemma DownFailedKeeps(s: State, r: Reception)
    requires AuthInv(s) && s.down.Recv? && (r.Failed? || r.payload == [])
    ensures AuthInv(DownDataReceived(s, r)) && AtMostStops(s, DownDataReceived(s, r))
  {
    hide Store, Accept, Begin;
  }

  lemma DownTakenKeeps(s: State, r: Reception)
    requires AuthInv(s) && s.down.Recv? && r.Datagram? && r.payload != [] && |r.payload| <= |s.dst.buf|
    ensures AuthInv(DownDataReceived(s, r)) && SameControl(s, DownDataReceived(s, r))
  {
    hide Store, Accept, Begin, Stop;
  }

  lemma DownDataKeeps(s: State, r: Reception)
    requires AuthInv(s) && s.down.Recv? && Possible(s, DownReceived(r))
    ensures AuthInv(DownDataReceived(s, r)) && AtMostStops(s, DownDataReceived(s, r))
  {
    hide AuthInv, SameControl, DownDataReceived;
    if r.Failed? || r.payload == [] {
      DownFailedKeeps(s, r);
    } else {
      DownTakenKeeps(s, r);
    }
  }

  lemma DownEchoedKeeps(s: State, ok: bool, reopens: bool)
    requires AuthInv(s) && s.down.AuthEcho?
    ensures AuthInv(DownEchoed(s, ok, reopens)) && AtMostStops(s, DownEchoed(s, ok, reopens))
  {
    hide DownRetry;
    DownRetryKeeps(s);
  }

  lemma DownRelayedKeeps(s: State, ok: bool)
    requires AuthInv(s) && s.down.Send?
    ensures AuthInv(DownRelayed(s, s.down.n, ok)) && AtMostStops(s, DownRelayed(s, s.down.n, ok))
  {
    hide Complete;
  }

  lemma StopKeepsStop(s: State, t: State)
    requires StopInv(s) && AtMostStops(s, t)
    ensures StopInv(t)
  {
  }

  lemma ResumeKeeps(s: State, e: Event)
    requires AuthInv(s) && Possible(s, e) && (e.UpResume? || e.DownResume? || e.ToStop?)
    ensures AuthInv(Act(s, e)) && AtMostStops(s, Act(s, e))
  {
  }

  lemma LoseKeeps(s: State, e: Event)
    requires AuthInv(s) && StopInv(s) && (e.Expire? || e.OwnerGone?)
    ensures AuthInv(Act(s, e)) && StopInv(Act(s, e))
  {
  }

  lemma HandlerKeeps(s: State, e: Event)
    requires AuthInv(s) && Possible(s, e) && (e.UpReceived? || e.UpSent? || e.DownReceived? || e.DownSent?)
    ensures AuthInv(Act(s, e)) && AtMostStops(s, Act(s, e))
  {
    hide AuthInv, AtMostStops, UpAuthReceived, UpDataReceived, UpEchoed, UpRelayed;
    hide DownAuthReceived, DownDataReceived, DownEchoed, DownRelayed;
    match e {
      case UpReceived(r) =>
        if s.up.AuthRecv? {
          UpAuthKeeps(s, r);
        } else {
          UpDataKeeps(s, r);
        }
      case UpSent(ok) =>
        if s.up.AuthEcho? {
          UpEchoedKeeps(s, ok);
        } else {
          UpRelayedKeeps(s, ok);
        }
      case DownReceived(r) =>
        if s.down.AuthRecv? {
          DownAuthKeeps(s, r);
        } else {
          DownDataKeeps(s, r);
        }
      case DownSent(ok, reopens) =>
        if s.down.AuthEcho? {
          DownEchoedKeeps(s, ok, reopens);
        } else {
          DownRelayedKeeps(s, ok);
        }
    }
  }

  lemma ClockIsNoControl(s: State, clock: nat)
    requires AuthInv(s) && StopInv(s)
    ensures AuthInv(s.(clock := clock)) && StopInv(s.(clock := clock))
  {
  }

  lemma StepKeepsControl(s: State, e: Event)
    requires AuthInv(s) && StopInv(s)
    ensures AuthInv(Step(s, e)) && StopInv(Step(s, e))
  {
    hide AuthInv, StopInv, AtMostStops, Act, Possible;
    if !Possible(s, e) {
      ClockIsNoControl(s, s.clock + 1);
    } else {
      if e.Expire? || e.OwnerGone? {
        LoseKeeps(s, e);
      } else {
        if e.UpResume? || e.DownResume? || e.ToStop? {
          ResumeKeeps(s, e);
        } else {
          HandlerKeeps(s, e);
        }
        StopKeepsStop(s, Act(s, e));
      }
      ClockIsNoControl(Act(s, e), s.clock + 1);
    }
  }

  // ----- Flows -----

  /** The payloads of the accepted datagrams whose send succeeded, in order. */
  function Delivered(accepted: seq<Arrival>, outcomes: seq<bool>): seq<seq<byte>>
    requires |outcomes| <= |accepted|
  {
    if outcomes == [] then []
    else
      var k := |outcomes| - 1;
      Delivered(accepted, outcomes[..k]) + if outcomes[k] then [accepted[k].payload] else []
  }

  function Total(payloads: seq<seq<byte>>): nat {
    if payloads == [] then 0 else Total(payloads[..|payloads| - 1]) + |payloads[|payloads| - 1]|
  }

  lemma {:induction false} DeliveredIgnoresNew(accepted: seq<Arrival>, a: Arrival, outcomes: seq<bool>)
    requires |outcomes| <= |accepted|
    ensures Delivered(accepted + [a], outcomes) == Delivered(accepted, outcomes)
  {
    if outcomes != [] {
      DeliveredIgnoresNew(accepted, a, outcomes[..|outcomes| - 1]);
    }
  }

  /** A datagram being sent is still in the buffer as it was accepted; what was sent is what was accepted,
      minus the failures; the counters count it. */
  ghost predicate FlowInv(f: Flow, pc: Pc, buf: seq<byte>, started: bool) {
    && |f.accepted| == |f.outcomes| + (if pc.Send? then 1 else 0)
    && (pc.Send? ==> 2 < pc.n <= |buf| && buf[..pc.n] == f.accepted[|f.accepted| - 1].payload)
    && (pc.Ready? || pc.AuthRecv? || pc.AuthEcho? ==> f.accepted == [])
    && f.sent == Delivered(f.accepted, f.outcomes)
    && f.bytes == Total(f.sent) % UINT64 && f.packs == |f.sent| % UINT64
    && (started ==> f.late == 0)
    && f.late + (if pc.AuthRecv? || pc.Recv? then 1 else 0) <= 1
  }

  lemma AcceptKeepsFlow(f: Flow, pc: Pc, buf: seq<byte>, started: bool, payload: seq<byte>, from: Endpoint, at: nat)
    requires FlowInv(f, pc, buf, started) && pc.Recv? && 2 < |payload| <= |buf|
    ensures FlowInv(Begin(Accept(f, payload, from, at), started), Send(|payload|), Store(buf, payload), started)
  {
    DeliveredIgnoresNew(f.accepted, Arrival(payload, from, at), f.outcomes);
    assert Store(buf, payload)[..|payload|] == payload;
  }

  lemma CompleteKeepsFlow(f: Flow, n: nat, buf: seq<byte>, started: bool, ok: bool)
    requires FlowInv(f, Send(n), buf, started)
    ensures FlowInv(Complete(f, ok, buf[..n]), Finished, buf, started)
    ensures started ==> FlowInv(Complete(f, ok, buf[..n]), Recv, buf, started)
  {
    var g := Complete(f, ok, buf[..n]);
    assert g.outcomes[..|f.outcomes|] == f.outcomes;
    if ok {
      assert g.sent[..|f.sent|] == f.sent;
      CountsOn(Total(f.sent), |buf[..n]|);
      CountsOn(|f.sent|, 1);
    }
  }

  lemma CountsOn(a: nat, b: nat)
    ensures (a % UINT64 + b) % UINT64 == (a + b) % UINT64
  {
  }

  ghost predicate Flows(s: State) {
    FlowInv(s.upFlow, s.up, s.src.buf, s.started) && FlowInv(s.downFlow, s.down, s.dst.buf, s.started)
  }

  lemma UpRetryKeepsFlows(s: State)
    requires Flows(s) && (s.up.AuthRecv? || s.up.AuthEcho?)
    ensures Flows(UpRetry(s))
  {
    hide Delivered, Total;
  }

  lemma UpAuthKeepsFlows(s: State, r: Reception)
    requires Flows(s) && s.up.AuthRecv? && Possible(s, UpReceived(r))
    ensures Flows(UpAuthReceived(s, r))
  {
    hide Delivered, Total, Store, Zeros, UpRetry;
    if r.Failed? {
      UpRetryKeepsFlows(s);
    } else if r.payload == [] {
      UpRetryKeepsFlows(s.(src := s.src.(remote := r.from)));
    }
  }

  lemma UpDataKeepsFlows(s: State, r: Reception)
    requires Flows(s) && s.up.Recv? && Possible(s, UpReceived(r))
    ensures Flows(UpDataReceived(s, r))
  {
    hide Delivered, Total;
    if r.Datagram? && |r.payload| > 2 {
      AcceptKeepsFlow(s.upFlow, s.up, s.src.buf, s.started, r.payload, r.from, s.clock);
    }
  }

  lemma UpSentKeepsFlows(s: State, ok: bool)
    requires Flows(s)
    ensures s.up.AuthEcho? ==> Flows(UpEchoed(s, ok))
    ensures s.up.Send? ==> Flows(UpRelayed(s, s.up.n, ok))
  {
    hide Delivered, Total, Complete, UpRetry;
    if s.up.AuthEcho? {
      UpRetryKeepsFlows(s.(src := s.src.(auth := false)));
    }
    if s.up.Send? {
      CompleteKeepsFlow(s.upFlow, s.up.n, s.src.buf, s.started, ok);
    }
  }

  lemma DownRetryKeepsFlows(s: State)
    requires Flows(s) && (s.down.AuthRecv? || s.down.AuthEcho?)
    ensures Flows(DownRetry(s))
  {
    hide Delivered, Total;
  }

  lemma DownAuthKeepsFlows(s: State, r: Reception)
    requires Flows(s) && s.down.AuthRecv? && Possible(s, DownReceived(r))
    ensures Flows(DownAuthReceived(s, r))
  {
    hide Delivered, Total, Store, Zeros, DownRetry;
    if r.Failed? {
      DownRetryKeepsFlows(s);
    } else if r.payload == [] {
      DownRetryKeepsFlows(s.(dst := s.dst.(remote := r.from)));
    }
  }

  lemma DownDataKeepsFlows(s: State, r: Reception)
    requires Flows(s) && s.down.Recv? && Possible(s, DownReceived(r))
    ensures Flows(DownDataReceived(s, r))
  {
    hide Delivered, Total;
    if r.Datagram? && |r.payload| > 2 {
      AcceptKeepsFlow(s.downFlow, s.down, s.dst.buf, s.started, r.payload, r.from, s.clock);
    }
  }

  lemma DownSentKeepsFlows(s: State, ok: bool, reopens: bool)
    requires Flows(s)
    ensures s.down.AuthEcho? ==> Flows(DownEchoed(s, ok, reopens))
    ensures s.down.Send? ==> Flows(DownRelayed(s, s.down.n, ok))
  {
    hide Delivered, Total, Complete, DownRetry;
    if s.down.AuthEcho? {
      DownRetryKeepsFlows(s);
    }
    if s.down.Send? {
      CompleteKeepsFlow(s.downFlow, s.down.n, s.dst.buf, s.started, ok);
    }
  }

  lemma ControlKeepsFlows(s: State, e: Event)
    requires Flows(s) && Possible(s, e)
    requires e.UpResume? || e.DownResume? || e.ToStop? || e.Expire? || e.OwnerGone?
    ensures Flows(Act(s, e))
  {
    hide Delivered, Total;
  }

  lemma StepKeepsFlows(s: State, e: Event)
    requires Flows(s)
    ensures Flows(Step(s, e))
  {
    if Possible(s, e) {
      assert Flows(Act(s, e)) by {
        hide Flows;
        hide UpAuthReceived, UpDataReceived, UpEchoed, UpRelayed;
        hide DownAuthReceived, DownDataReceived, DownEchoed, DownRelayed;
        match e {
          case UpReceived(r) =>
            if s.up.AuthRecv? {
              UpAuthKeepsFlows(s, r);
            } else {
              UpDataKeepsFlows(s, r);
            }
          case UpSent(ok) => UpSentKeepsFlows(s, ok);
          case DownReceived(r) =>
            if s.down.AuthRecv? {
              DownAuthKeepsFlows(s, r);
            } else {
              DownDataKeepsFlows(s, r);
            }
          case DownSent(ok, reopens) => DownSentKeepsFlows(s, ok, reopens);
          case _ => ControlKeepsFlows(s, e);
        }
      }
      ClockIsNoFlow(Act(s, e), s.clock + 1);
    } else {
      ClockIsNoFlow(s, s.clock + 1);
    }
    hide Flows, Act, Possible;
  }

  lemma ClockIsNoFlow(s: State, clock: nat)
    requires Flows(s)
    ensures Flows(s.(clock := clock))
  {
  }

  // ----- Where the relayed datagrams come from -----

  function Receives(r: Reception, up: bool): Event {
    if up then UpReceived(r) else DownReceived(r)
  }

  /** `a` was received by event number `a.at`, while its direction was open. */
  ghost predicate Witnessed(init: State, events: seq<Event>, a: Arrival, up: bool) {
    && a.at < |events| && |a.payload| > 2
    && events[a.at] == Receives(Datagram(a.payload, a.from), up)
    && var s := After(init, events[..a.at]); if up then s.src.auth else s.dst.auth
  }

  ghost predicate AllWitnessed(init: State, events: seq<Event>, accepted: seq<Arrival>, up: bool) {
    && (forall k :: 0 <= k < |accepted| ==> Witnessed(init, events, accepted[k], up))
    && (forall j, k :: 0 <= j < k < |accepted| ==> accepted[j].at < accepted[k].at)
  }

  ghost predicate AllFrom(accepted: seq<Arrival>, addr: int) {
    forall k :: 0 <= k < |accepted| ==> accepted[k].from.addr == addr
  }

  /** The uploader's place, buffer, authentication and flow. */
  predicate SameUp(s: State, t: State) {
    && t.up == s.up && t.upFlow == s.upFlow && t.pinned == s.pinned
    && t.src.buf == s.src.buf && t.src.auth == s.src.auth && t.src.remote == s.src.remote
  }

  predicate SameDown(s: State, t: State) {
    && t.down == s.down && t.downFlow == s.downFlow && t.downTo == s.downTo
    && t.dst.buf == s.dst.buf && t.dst.auth == s.dst.auth && t.dst.remote == s.dst.remote
  }

  predicate UpEvent(e: Event) {
    e.UpResume? || e.UpReceived? || e.UpSent?
  }

  predicate DownEvent(e: Event) {
    e.DownResume? || e.DownReceived? || e.DownSent?
  }

  lemma UpAuthLeavesDown(s: State, r: Reception)
    requires r.Datagram? ==> |r.payload| <= |s.src.buf|
    ensures SameDown(s, UpAuthReceived(s, r))
  {
    assert SameDown(s, Stop(s));
    hide Stop, Store, Zeros, Begin;
  }

  lemma UpDataLeavesDown(s: State, r: Reception)
    requires r.Datagram? ==> |r.payload| <= |s.src.buf|
    ensures SameDown(s, UpDataReceived(s, r))
  {
    assert SameDown(s, Stop(s));
    hide Stop, Store, Accept, Begin;
  }

  lemma UpSendLeavesDown(s: State, n: nat, ok: bool)
    ensures SameDown(s, UpEchoed(s, ok)) && SameDown(s, UpRelayed(s, n, ok))
  {
    assert SameDown(s, Stop(s));
    hide Stop, Complete;
  }

  lemma DownAuthLeavesUp(s: State, r: Reception)
    requires r.Datagram? ==> |r.payload| <= |s.dst.buf|
    ensures SameUp(s, DownAuthReceived(s, r))
  {
    assert SameUp(s, Stop(s));
    hide Stop, Store, Zeros, Begin;
  }

  lemma DownDataLeavesUp(s: State, r: Reception)
    requires r.Datagram? ==> |r.payload| <= |s.dst.buf|
    ensures SameUp(s, DownDataReceived(s, r))
  {
    assert SameUp(s, Stop(s));
    hide Stop, Store, Accept, Begin;
  }

  lemma DownSendLeavesUp(s: State, n: nat, ok: bool, reopens: bool)
    ensures SameUp(s, DownEchoed(s, ok, reopens)) && SameUp(s, DownRelayed(s, n, ok))
  {
    assert SameUp(s, Stop(s));
    hide Stop, Complete;
  }

  /** Neither coroutine ever touches what the other is relaying; nor does a stop, an expiry or a lost session. */
  lemma OthersLeaveUp(s: State, e: Event)
    requires !UpEvent(e)
    ensures SameUp(s, Step(s, e))
  {
    hide DownAuthReceived, DownDataReceived, DownEchoed, DownRelayed;
    if Possible(s, e) {
      match e {
        case DownReceived(r) =>
          DownAuthLeavesUp(s, r);
          DownDataLeavesUp(s, r);
        case DownSent(ok, reopens) => DownSendLeavesUp(s, if s.down.Send? then s.down.n else 0, ok, reopens);
        case _ =>
      }
    }
  }

  lemma OthersLeaveDown(s: State, e: Event)
    requires !DownEvent(e)
    ensures SameDown(s, Step(s, e))
  {
    hide UpAuthReceived, UpDataReceived, UpEchoed, UpRelayed;
    if Possible(s, e) {
      match e {
        case UpReceived(r) =>
          UpAuthLeavesDown(s, r);
          UpDataLeavesDown(s, r);
        case UpSent(ok) => UpSendLeavesDown(s, if s.up.Send? then s.up.n else 0, ok);
        case _ =>
      }
    }
  }

  /** Acceptance happens in one place of each coroutine, and the pinned address only moves before it. */
  lemma UpAccepts(s: State, e: Event)
    requires AuthInv(s) && Flows(s)
    ensures var t := Step(s, e);
      || (t.upFlow.accepted == s.upFlow.accepted && (t.pinned == s.pinned || s.upFlow.accepted == []))
      || (&& e.UpReceived? && e.r.Datagram? && |e.r.payload| > 2 && e.r.from.addr == s.pinned == t.pinned && s.src.auth
          && t.upFlow.accepted == s.upFlow.accepted + [Arrival(e.r.payload, e.r.from, s.clock)])
  {
    hide Delivered, Total, Store, Zeros;
    if !UpEvent(e) {
      hide Step, AuthInv, Flows;
      OthersLeaveUp(s, e);
    } else {
      hide DownAuthReceived, DownDataReceived, DownEchoed, DownRelayed;
    }
  }

  /** Nothing is accepted for download. */
  predicate AcceptsNothing(s: State, t: State) {
    t.downFlow.accepted == s.downFlow.accepted && t.downTo == s.downTo
  }

  lemma DownAuthAccepts(s: State, r: Reception)
    requires r.Datagram? ==> |r.payload| <= |s.dst.buf|
    ensures AcceptsNothing(s, DownAuthReceived(s, r))
  {
    hide Store;
  }

  lemma DownSentAccepts(s: State, n: nat, ok: bool, reopens: bool)
    ensures AcceptsNothing(s, DownEchoed(s, ok, reopens)) && AcceptsNothing(s, DownRelayed(s, n, ok))
  {
  }

  lemma DownDataAccepts(s: State, r: Reception)
    requires r.Datagram? ==> |r.payload| <= |s.dst.buf|
    ensures var t := DownDataReceived(s, r);
      if r.Datagram? && |r.payload| > 2 then
        && t.downTo == s.downTo + [s.src.remote]
        && t.downFlow.accepted == s.downFlow.accepted + [Arrival(r.payload, r.from, s.clock)]
      else AcceptsNothing(s, t)
  {
    hide Store;
  }

  lemma DownAccepts(s: State, e: Event)
    requires AuthInv(s)
    ensures var t := Step(s, e);
      || AcceptsNothing(s, t)
      || (&& t.downTo == s.downTo + [s.src.remote]
          && e.DownReceived? && e.r.Datagram? && |e.r.payload| > 2 && s.dst.auth
          && t.downFlow.accepted == s.downFlow.accepted + [Arrival(e.r.payload, e.r.from, s.clock)])
  {
    if !DownEvent(e) {
      hide Step, AuthInv;
      OthersLeaveDown(s, e);
    } else if Possible(s, e) {
      hide DownAuthReceived, DownDataReceived, DownEchoed, DownRelayed;
      match e {
        case DownReceived(r) =>
          DownAuthAccepts(s, r);
          DownDataAccepts(s, r);
        case DownSent(ok, reopens) => DownSentAccepts(s, if s.down.Send? then s.down.n else 0, ok, reopens);
        case DownResume(_) =>
      }
    }
  }

  lemma WitnessesExtend(init: State, events: seq<Event>, e: Event, accepted: seq<Arrival>, up: bool)
    requires AllWitnessed(init, events, accepted, up)
    ensures AllWitnessed(init, events + [e], accepted, up)
  {
    forall k | 0 <= k < |accepted|
      ensures Witnessed(init, events + [e], accepted[k], up)
    {
      assert (events + [e])[..accepted[k].at] == events[..accepted[k].at];
    }
  }

  lemma WitnessNew(init: State, events: seq<Event>, e: Event, accepted: seq<Arrival>, a: Arrival, up: bool)
    requires AllWitnessed(init, events, accepted, up) && a.at == |events| && |a.payload| > 2
    requires e == Receives(Datagram(a.payload, a.from), up)
    requires var s := After(init, events); if up then s.src.auth else s.dst.auth
    ensures AllWitnessed(init, events + [e], accepted + [a], up)
  {
    WitnessesExtend(init, events, e, accepted, up);
    assert (events + [e])[..a.at] == events;
  }

  /** A datagram accepted by event number `at` goes where the source's last datagram came from; that address is
      the pinned one if the source is authenticated. */
  ghost predicate Targeted(init: State, events: seq<Event>, at: nat, to: Endpoint) {
    && at <= |events|
    && var s := After(init, events[..at]); to == s.src.remote && (s.src.auth ==> to.addr == s.pinned)
  }

  ghost predicate AllTargeted(init: State, events: seq<Event>, accepted: seq<Arrival>, targets: seq<Endpoint>) {
    |targets| == |accepted| && forall k :: 0 <= k < |targets| ==> Targeted(init, events, accepted[k].at, targets[k])
  }

  lemma TargetsExtend(init: State, events: seq<Event>, e: Event, accepted: seq<Arrival>, targets: seq<Endpoint>)
    requires AllTargeted(init, events, accepted, targets)
    ensures AllTargeted(init, events + [e], accepted, targets)
  {
    forall k | 0 <= k < |targets|
      ensures Targeted(init, events + [e], accepted[k].at, targets[k])
    {
      assert Targeted(init, events, accepted[k].at, targets[k]);
      assert (events + [e])[..accepted[k].at] == events[..accepted[k].at];
    }
  }

  lemma TargetNew(
      init: State, events: seq<Event>, e: Event, accepted: seq<Arrival>, a: Arrival, targets: seq<Endpoint>)
    requires AllTargeted(init, events, accepted, targets) && a.at == |events|
    requires var s := After(init, events); s.src.auth ==> s.src.remote.addr == s.pinned
    ensures AllTargeted(init, events + [e], accepted + [a], targets + [After(init, events).src.remote])
  {
    TargetsExtend(init, events, e, accepted, targets);
    assert (events + [e])[..a.at] == events;
  }

  ghost predicate Inv(init: State, events: seq<Event>) {
    var s := After(init, events);
    && AuthInv(s) && StopInv(s) && Flows(s) && s.clock == |events|
    && AllTargeted(init, events, s.downFlow.accepted, s.downTo)
    && AllWitnessed(init, events, s.upFlow.accepted, true) && AllFrom(s.upFlow.accepted, s.pinned)
    && AllWitnessed(init, events, s.downFlow.accepted, false)
  }

  ghost predicate IsStart(s: State) {
    exists a, b, x, y :: s == Start(a, b, x, y)
  }

  lemma {:induction false} RunsKeepInv(init: State, events: seq<Event>)
    requires IsStart(init)
    ensures Inv(init, events)
    decreases |events|
  {
    if events != [] {
      var before, e := events[..|events| - 1], events[|events| - 1];
      assert events == before + [e];
      RunsKeepInv(init, before);
      ExtendInv(init, before, e);
    }
  }

  lemma ExtendInv(init: State, before: seq<Event>, e: Event)
    requires Inv(init, before)
    ensures Inv(init, before + [e])
  {
    var events, s := before + [e], After(init, before);
    assert events[..|before|] == before;
    var t := Step(s, e);
    assert t.clock == s.clock + 1;
    StepKeepsControl(s, e);
    StepKeepsFlows(s, e);
    UpAccepts(s, e);
    DownAccepts(s, e);
    assert s.src.auth ==> s.src.remote.addr == s.pinned;
    hide Step, Flows, AuthInv, StopInv, AllWitnessed, AllTargeted;
    TargetsExtend(init, before, e, s.downFlow.accepted, s.downTo);
    WitnessesExtend(init, before, e, s.upFlow.accepted, true);
    WitnessesExtend(init, before, e, s.downFlow.accepted, false);
    if t.upFlow.accepted != s.upFlow.accepted {
      WitnessNew(init, before, e, s.upFlow.accepted, Arrival(e.r.payload, e.r.from, s.clock), true);
    }
    if t.downFlow.accepted != s.downFlow.accepted {
      WitnessNew(init, before, e, s.downFlow.accepted, Arrival(e.r.payload, e.r.from, s.clock), false);
      TargetNew(init, before, e, s.downFlow.accepted, Arrival(e.r.payload, e.r.from, s.clock), s.downTo);
    }
  }

  /** Relay integrity, upwards: whatever the interleaving, what has been sent to the destination is, byte for
      byte and in order, those datagrams received on the source socket - after the source was authenticated,
      longer than a heartbeat and from the pinned address - whose send succeeded; the counters count it. */
  lemma UploadIsFaithful(init: State, events: seq<Event>)
    requires IsStart(init)
    ensures var s := After(init, events); var f := s.upFlow;
      && (s.src.auth ==> s.dst.auth && s.src.remote.addr == s.pinned)
      && |f.outcomes| <= |f.accepted| && f.sent == Delivered(f.accepted, f.outcomes)
      && AllWitnessed(init, events, f.accepted, true) && AllFrom(f.accepted, s.pinned)
      && f.bytes == Total(f.sent) % 18446744073709551616 && f.packs == |f.sent| % 18446744073709551616
  {
    RunsKeepInv(init, events);
  }

  /** The same downwards, for datagrams received on the destination socket after it was authenticated.  Each is
      sent to where the source's last datagram came from, which is the pinned address only once the source is
      authenticated. */
  lemma DownloadIsFaithful(init: State, events: seq<Event>)
    requires IsStart(init)
    ensures var s := After(init, events); var f := s.downFlow;
      && |f.outcomes| <= |f.accepted| && f.sent == Delivered(f.accepted, f.outcomes)
      && AllWitnessed(init, events, f.accepted, false)
      && AllTargeted(init, events, f.accepted, s.downTo)
      && f.bytes == Total(f.sent) % 18446744073709551616 && f.packs == |f.sent| % 18446744073709551616
  {
    RunsKeepInv(init, events);
  }

  lemma AfterSnoc(init: State, events: seq<Event>, e: Event)
    ensures After(init, events + [e]) == Step(After(init, events), e)
  {
    assert (events + [e])[..|events|] == events;
  }

  /** Teardown: however many coroutines, stop requests and expiries fire, the channel is torn down at most once;
      each session is told exactly once, unless its end had lost it before; and each coroutine begins at most
      one more send afterwards. */
  lemma TeardownOnce(init: State, events: seq<Event>)
    requires IsStart(init)
    ensures var s := After(init, events);
      && s.stops <= 1 && (s.stops == 1 <==> !s.started)
      && (s.srcStops == 1 <==> s.stops == 1 && !s.srcLost) && s.srcStops <= 1
      && (s.dstStops == 1 <==> s.stops == 1 && !s.dstLost) && s.dstStops <= 1
      && (!s.started ==> !s.src.isOpen && !s.src.owned && !s.dst.owned)
      && s.upFlow.late <= 1 && s.downFlow.late <= 1
  {
    RunsKeepInv(init, events);
  }
}
