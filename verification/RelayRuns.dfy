/** What whole runs of the relay tell about the destination socket and about the source's authentication. */
module RelayRuns {
  import opened Bytes
  import opened Relay

  // ----- The destination socket -----

  /** The downloader leaves its authentication phase with its socket closed, and connecting opens it again. */
  predicate Revives(s: State, e: Event) {
    && !s.dst.isOpen && !(s.started && !s.dst.auth)
    && ((s.down.Ready? && e == DownResume(true)) || (s.down.AuthEcho? && e == DownSent(true, true)))
  }

  /** The channel is torn down, or the end expires. */
  predicate ClosesDst(s: State, e: Event) {
    e == Expire(false) || (s.started && !Step(s, e).started)
  }

  /** The destination socket stays as it is, unless the channel is torn down. */
  predicate ClosesOnlyByStopping(s: State, t: State) {
    if t.started then s.started && t.dst.isOpen == s.dst.isOpen
    else t.dst.isOpen == (s.dst.isOpen && !s.started)
  }

  lemma UpAuthCloses(s: State, r: Reception)
    requires r.Datagram? ==> |r.payload| <= |s.src.buf|
    ensures ClosesOnlyByStopping(s, UpAuthReceived(s, r))
  {
    hide Store, Zeros, Begin;
  }

  lemma UpDataCloses(s: State, r: Reception)
    requires r.Datagram? ==> |r.payload| <= |s.src.buf|
    ensures ClosesOnlyByStopping(s, UpDataReceived(s, r))
  {
    hide Store, Begin, Accept;
  }

  lemma UpSentCloses(s: State, n: nat, ok: bool)
    ensures ClosesOnlyByStopping(s, UpEchoed(s, ok)) && ClosesOnlyByStopping(s, UpRelayed(s, n, ok))
  {
    hide Complete;
  }

  lemma DownAuthCloses(s: State, r: Reception)
    requires r.Datagram? ==> |r.payload| <= |s.dst.buf|
    ensures ClosesOnlyByStopping(s, DownAuthReceived(s, r))
  {
    hide Store, Begin;
  }

  lemma DownDataCloses(s: State, r: Reception)
    requires r.Datagram? ==> |r.payload| <= |s.dst.buf|
    ensures ClosesOnlyByStopping(s, DownDataReceived(s, r))
  {
    hide Store, Begin, Accept;
  }

  lemma DownRelayedCloses(s: State, n: nat, ok: bool)
    ensures ClosesOnlyByStopping(s, DownRelayed(s, n, ok))
  {
    hide Complete;
  }

  /** Every handler but those that may connect. */
  lemma StepCloses(s: State, e: Event)
    requires Possible(s, e) && !e.Expire? && !e.OwnerGone? && !e.DownResume?
    requires e.DownSent? ==> s.down.Send?
    ensures ClosesOnlyByStopping(s, Act(s, e))
  {
    hide UpAuthReceived, UpDataReceived, UpEchoed, UpRelayed;
    hide DownAuthReceived, DownDataReceived, DownEchoed, DownRelayed;
    match e {
      case UpReceived(r) =>
        UpAuthCloses(s, r);
        UpDataCloses(s, r);
      case UpSent(ok) => UpSentCloses(s, if s.up.Send? then s.up.n else 0, ok);
      case DownReceived(r) =>
        DownAuthCloses(s, r);
        DownDataCloses(s, r);
      case DownSent(ok, _) => DownRelayedCloses(s, s.down.n, ok);
      case _ =>
    }
  }

  lemma ConnectOpens(s: State, e: Event)
    requires Possible(s, e) && (e.DownResume? || (e.DownSent? && s.down.AuthEcho?))
    ensures Revives(s, e) ==> Act(s, e).dst.isOpen && Act(s, e).started == s.started
    ensures !Revives(s, e) ==> ClosesOnlyByStopping(s, Act(s, e))
  {
    hide UpAuthReceived, UpDataReceived, UpEchoed, UpRelayed, DownAuthReceived, DownDataReceived, DownRelayed;
  }

  /** One step opens or closes the destination socket in no other way. */
  lemma StepKeepsDstOpen(s: State, e: Event)
    ensures Step(s, e).dst.isOpen <==> Revives(s, e) || (s.dst.isOpen && !ClosesDst(s, e))
  {
    if Possible(s, e) && !e.Expire? && !e.OwnerGone? {
      hide Act;
      if e.DownResume? || (e.DownSent? && s.down.AuthEcho?) {
        ConnectOpens(s, e);
      } else {
        StepCloses(s, e);
      }
    }
  }

  /** The socket was revived and has not been closed since. */
  ghost predicate Revived(init: State, events: seq<Event>) {
    exists i :: 0 <= i < |events| && RevivedAt(init, events, i)
  }

  ghost predicate RevivedAt(init: State, events: seq<Event>, i: nat)
    requires i < |events|
  {
    && Revives(After(init, events[..i]), events[i])
    && forall j :: i < j < |events| ==> !ClosedAt(init, events, j)
  }

  ghost predicate ClosedAt(init: State, events: seq<Event>, j: nat)
    requires j < |events|
  {
    ClosesDst(After(init, events[..j]), events[j])
  }

  ghost predicate Closed(init: State, events: seq<Event>) {
    exists j :: 0 <= j < |events| && ClosedAt(init, events, j)
  }

  lemma ClosedAtSnoc(init: State, events: seq<Event>, e: Event)
    ensures forall j :: 0 <= j < |events| ==> (ClosedAt(init, events + [e], j) <==> ClosedAt(init, events, j))
    ensures ClosedAt(init, events + [e], |events|) <==> ClosesDst(After(init, events), e)
  {
    hide ClosesDst, After;
    var all := events + [e];
    assert all[..|events|] == events;
    forall j | 0 <= j < |events|
      ensures ClosedAt(init, all, j) <==> ClosedAt(init, events, j)
    {
      assert all[..j] == events[..j];
    }
  }

  lemma ClosedSnoc(init: State, events: seq<Event>, e: Event)
    ensures Closed(init, events + [e]) <==> Closed(init, events) || ClosesDst(After(init, events), e)
  {
    hide ClosedAt;
    ClosedAtSnoc(init, events, e);
    if Closed(init, events) {
      var j :| 0 <= j < |events| && ClosedAt(init, events, j);
      assert ClosedAt(init, events + [e], j);
    }
    if ClosesDst(After(init, events), e) {
      assert ClosedAt(init, events + [e], |events|);
    }
  }

  lemma RevivedSnoc(init: State, events: seq<Event>, e: Event)
    ensures Revived(init, events + [e])
       <==> Revives(After(init, events), e) || (Revived(init, events) && !ClosesDst(After(init, events), e))
  {
    hide ClosedAt, Revives, ClosesDst, After;
    var all := events + [e];
    ClosedAtSnoc(init, events, e);
    assert all[..|events|] == events;
    if Revives(After(init, events), e) {
      assert RevivedAt(init, all, |events|);
    }
    if Revived(init, events) && !ClosesDst(After(init, events), e) {
      var i :| 0 <= i < |events| && RevivedAt(init, events, i);
      assert all[..i] == events[..i];
      assert RevivedAt(init, all, i);
    }
    if Revived(init, all) {
      var i :| 0 <= i < |all| && RevivedAt(init, all, i);
      if i < |events| {
        assert all[..i] == events[..i];
        assert !ClosedAt(init, all, |events|);
        assert RevivedAt(init, events, i);
      }
    }
  }

  /** In every run the destination socket is open exactly if nothing has closed it yet, or if the downloader has
      revived it since; and nothing but a closing ends a channel's life. */
  lemma {:induction false} DstOpenExact(init: State, events: seq<Event>)
    requires IsStart(init)
    ensures After(init, events).dst.isOpen <==> !Closed(init, events) || Revived(init, events)
    ensures !After(init, events).started ==> Closed(init, events)
    decreases |events|
  {
    hide Closed, Revived, Revives, ClosesDst, Step;
    if events == [] {
      NothingClosed(init, events);
    } else {
      var before, e := events[..|events| - 1], events[|events| - 1];
      assert events == before + [e];
      DstOpenExact(init, before);
      ClosedSnoc(init, before, e);
      RevivedSnoc(init, before, e);
      StepKeepsDstOpen(After(init, before), e);
      TeardownCloses(After(init, before), e);
    }
  }

  lemma NothingClosed(init: State, events: seq<Event>)
    requires events == []
    ensures !Closed(init, events) && !Revived(init, events)
  {
  }

  lemma TeardownCloses(s: State, e: Event)
    ensures s.started && !Step(s, e).started ==> ClosesDst(s, e)
  {
  }

  /** After the teardown the source socket is closed in every run; the destination socket is closed exactly if the
      downloader has not left its authentication phase with the socket already closed, reviving it, since it was
      last closed. */
  lemma ClosedAfterTeardown(init: State, events: seq<Event>)
    requires IsStart(init) && !After(init, events).started
    ensures !After(init, events).src.isOpen
    ensures !After(init, events).dst.isOpen <==> !Revived(init, events)
  {
    TeardownOnce(init, events);
    DstOpenExact(init, events);
  }

  /** An authenticated destination whose echo has just been sent. */
  lemma EchoUnderway(init: State, p: Endpoint) returns (events: seq<Event>)
    requires IsStart(init) && |init.dst.buf| >= 1
    ensures var s := After(init, events); s.started && s.down.AuthEcho? && s.dst.auth
  {
    hide DownRetry;
    var hello := DownReceived(Datagram([1], p));
    AfterSnoc(init, [], DownResume(false));
    AfterSnoc(init, [] + [DownResume(false)], hello);
    events := [] + [DownResume(false)] + [hello];
  }

  /** The stop is served between the echo and its completion: the torn-down channel keeps an open socket. */
  lemma StoppedEndRevives(init: State, p: Endpoint) returns (events: seq<Event>)
    requires IsStart(init) && |init.dst.buf| >= 1
    ensures var s := After(init, events); !s.started && s.down == Finished && s.dst.isOpen
  {
    hide DownRetry, DownRelayed;
    var echoed := EchoUnderway(init, p);
    AfterSnoc(init, echoed, ToStop);
    AfterSnoc(init, echoed + [ToStop], DownSent(true, true));
    events := echoed + [ToStop] + [DownSent(true, true)];
  }

  /** The end expires in the same place: it lives on without a session, and a failed receive no longer stops the
      channel. */
  lemma ExpiredEndRevives(init: State, p: Endpoint) returns (events: seq<Event>)
    requires IsStart(init) && |init.dst.buf| >= 1
    ensures var s := After(init, events);
      && s.started && s.down == Recv && s.dst.isOpen && !s.dst.owned
      && After(init, events + [DownReceived(Failed)]).started
  {
    hide DownRetry, DownRelayed, DownAuthReceived;
    var echoed := EchoUnderway(init, p);
    AfterSnoc(init, echoed, Expire(false));
    AfterSnoc(init, echoed + [Expire(false)], DownSent(true, true));
    events := echoed + [Expire(false)] + [DownSent(true, true)];
    AfterSnoc(init, events, DownReceived(Failed));
  }

  // ----- The source's authentication -----

  /** A datagram from address `addr` authenticates the source. */
  predicate Knocks(s: State, e: Event, addr: int) {
    && s.up.AuthRecv? && Possible(s, e) && s.dst.auth
    && e.UpReceived? && e.r.Datagram? && e.r.payload != [] && e.r.from.addr == addr
  }

  /** The echo of an authentication fails. */
  predicate Revokes(s: State, e: Event) {
    s.up.AuthEcho? && e == UpSent(false)
  }

  /** `addr` has authenticated the source, and no echo has failed since. */
  ghost predicate Welcome(init: State, events: seq<Event>, addr: int) {
    exists i :: 0 <= i < |events| && WelcomeAt(init, events, addr, i)
  }

  ghost predicate WelcomeAt(init: State, events: seq<Event>, addr: int, i: nat)
    requires i < |events|
  {
    && Knocks(After(init, events[..i]), events[i], addr)
    && forall j :: i < j < |events| ==> !RevokedAt(init, events, j)
  }

  ghost predicate RevokedAt(init: State, events: seq<Event>, j: nat)
    requires j < |events|
  {
    Revokes(After(init, events[..j]), events[j])
  }

  lemma RevokedAtSnoc(init: State, events: seq<Event>, e: Event)
    ensures forall j :: 0 <= j < |events| ==> (RevokedAt(init, events + [e], j) <==> RevokedAt(init, events, j))
    ensures RevokedAt(init, events + [e], |events|) <==> Revokes(After(init, events), e)
  {
    hide Revokes, After;
    var all := events + [e];
    assert all[..|events|] == events;
    forall j | 0 <= j < |events|
      ensures RevokedAt(init, all, j) <==> RevokedAt(init, events, j)
    {
      assert all[..j] == events[..j];
    }
  }

  lemma WelcomeSnoc(init: State, events: seq<Event>, e: Event, addr: int)
    ensures Welcome(init, events + [e], addr)
       <==> Knocks(After(init, events), e, addr) || (Welcome(init, events, addr) && !Revokes(After(init, events), e))
  {
    hide RevokedAt, Knocks, Revokes, After;
    var all := events + [e];
    RevokedAtSnoc(init, events, e);
    assert all[..|events|] == events;
    if Knocks(After(init, events), e, addr) {
      assert WelcomeAt(init, all, addr, |events|);
    }
    if Welcome(init, events, addr) && !Revokes(After(init, events), e) {
      var i :| 0 <= i < |events| && WelcomeAt(init, events, addr, i);
      assert all[..i] == events[..i];
      assert WelcomeAt(init, all, addr, i);
    }
    if Welcome(init, all, addr) {
      var i :| 0 <= i < |all| && WelcomeAt(init, all, addr, i);
      if i < |events| {
        assert all[..i] == events[..i];
        assert !RevokedAt(init, all, |events|);
        assert WelcomeAt(init, events, addr, i);
      }
    }
  }

  predicate AuthenticatedAs(s: State, addr: int) {
    s.src.auth && s.src.remote.addr == addr
  }

  /** The same endpoint is authenticated, or none is. */
  predicate SameAuth(s: State, t: State) {
    t.src.auth == s.src.auth && (s.src.auth ==> t.src.remote.addr == s.src.remote.addr)
  }

  lemma UpAuthAuthenticates(s: State, r: Reception)
    requires AuthInv(s) && s.up.AuthRecv? && Possible(s, UpReceived(r))
    ensures var t := UpAuthReceived(s, r);
      if s.dst.auth && r.Datagram? && r.payload != [] then t.src.auth && t.src.remote == r.from else !t.src.auth
  {
    hide Store, Zeros, Begin;
  }

  lemma UpDataAuthenticates(s: State, r: Reception)
    requires s.up.Recv? && Possible(s, UpReceived(r))
    ensures SameAuth(s, UpDataReceived(s, r))
  {
    hide Store, Begin, Accept;
  }

  lemma UpSentAuthenticates(s: State, n: nat, ok: bool)
    ensures if ok then SameAuth(s, UpEchoed(s, ok)) else !UpEchoed(s, ok).src.auth
    ensures SameAuth(s, UpRelayed(s, n, ok))
  {
    hide Complete;
  }

  lemma StepAuthenticates(s: State, e: Event, addr: int)
    requires AuthInv(s)
    ensures AuthenticatedAs(Step(s, e), addr) <==> Knocks(s, e, addr) || (AuthenticatedAs(s, addr) && !Revokes(s, e))
  {
    if !UpEvent(e) {
      hide Step, AuthInv;
      OthersLeaveUp(s, e);
    } else if Possible(s, e) {
      hide UpAuthReceived, UpDataReceived, UpEchoed, UpRelayed;
      hide DownAuthReceived, DownDataReceived, DownEchoed, DownRelayed;
      match e {
        case UpReceived(r) =>
          if s.up.AuthRecv? {
            UpAuthAuthenticates(s, r);
          } else {
            UpDataAuthenticates(s, r);
          }
        case UpSent(ok) => UpSentAuthenticates(s, if s.up.Send? then s.up.n else 0, ok);
        case UpResume =>
      }
    }
  }

  /** In every run the source is authenticated, with an endpoint of address `addr`, exactly if `addr` is welcome. */
  lemma {:induction false} SrcAuthExact(init: State, events: seq<Event>, addr: int)
    requires IsStart(init)
    ensures AuthenticatedAs(After(init, events), addr) <==> Welcome(init, events, addr)
    decreases |events|
  {
    hide Welcome, Knocks, Revokes, Step, Inv, AuthInv;
    if events == [] {
      NobodyWelcome(init, events, addr);
    } else {
      var before, e := events[..|events| - 1], events[|events| - 1];
      assert events == before + [e];
      SrcAuthExact(init, before, addr);
      WelcomeSnoc(init, before, e, addr);
      AuthHolds(init, before);
      StepAuthenticates(After(init, before), e, addr);
    }
  }

  lemma NobodyWelcome(init: State, events: seq<Event>, addr: int)
    requires events == []
    ensures !Welcome(init, events, addr)
  {
  }

  lemma AuthHolds(init: State, events: seq<Event>)
    requires IsStart(init)
    ensures AuthInv(After(init, events))
  {
    RunsKeepInv(init, events);
  }

  /** Where each datagram accepted for download goes: to the source's endpoint of that moment, and that is the
      endpoint of someone who has authenticated the source, exactly if the source was authenticated then. */
  lemma DownloadTargets(init: State, events: seq<Event>, k: nat)
    requires IsStart(init) && k < |After(init, events).downTo|
    ensures var t := After(init, events);
      && |t.downTo| == |t.downFlow.accepted| && t.downFlow.accepted[k].at <= |events|
      && var past := events[..t.downFlow.accepted[k].at]; var s := After(init, past);
      && t.downTo[k] == s.src.remote
      && (Welcome(init, past, t.downTo[k].addr) <==> s.src.auth)
  {
    DownloadIsFaithful(init, events);
    hide Welcome, After;
    var t := After(init, events);
    var at := t.downFlow.accepted[k].at;
    assert Targeted(init, events, at, t.downTo[k]);
    SrcAuthExact(init, events[..at], t.downTo[k].addr);
  }

  /** Once a stranger has knocked at the source socket before the destination was authenticated. */
  lemma StrangerKnocks(init: State, stranger: Endpoint) returns (events: seq<Event>)
    requires IsStart(init) && |init.src.buf| >= 3
    ensures var s := After(init, events);
      && !s.src.auth && s.src.remote == stranger && s.started
      && s.down == AuthRecv && s.dst == init.dst && s.downTo == []
  {
    hide UpDataReceived, UpRetry, DownRetry, DownAuthReceived;
    var knock := Datagram([1], stranger);
    AfterSnoc(init, [], UpResume);
    AfterSnoc(init, [] + [UpResume], DownResume(false));
    AfterSnoc(init, [] + [UpResume] + [DownResume(false)], UpReceived(knock));
    events := [] + [UpResume] + [DownResume(false)] + [UpReceived(knock)];
  }

  /** The downloader does not wait for the source: once the destination is authenticated, its datagrams go to
      whoever sent the source socket anything last, authenticated or not. */
  lemma StrangerIsServed(init: State, stranger: Endpoint, server: Endpoint) returns (events: seq<Event>)
    requires IsStart(init) && |init.src.buf| >= 3 && |init.dst.buf| >= 3
    ensures var s := After(init, events); !s.src.auth && s.down.Send? && s.downTo == [stranger]
  {
    hide UpAuthReceived, UpDataReceived, UpEchoed, UpRelayed, DownRetry, DownRelayed;
    var hello, data := Datagram([1], server), Datagram([1, 2, 3], server);
    var knocked := StrangerKnocks(init, stranger);
    AfterSnoc(init, knocked, DownReceived(hello));
    AfterSnoc(init, knocked + [DownReceived(hello)], DownSent(true, false));
    AfterSnoc(init, knocked + [DownReceived(hello)] + [DownSent(true, false)], DownReceived(data));
    events := knocked + [DownReceived(hello)] + [DownSent(true, false)] + [DownReceived(data)];
  }

  /** A failed authentication echo is taken back on the source side, never on the destination side: there, once
      authenticated is authenticated for the rest of the run. */
  lemma {:induction false} DstAuthIsFinal(init: State, events: seq<Event>, more: seq<Event>)
    requires After(init, events).dst.auth
    ensures After(init, events + more).dst.auth
    decreases |more|
  {
    var n := |more|;
    if n == 0 {
      assert events + more == events;
    } else {
      var before := events + more[..n - 1];
      assert events + more == before + [more[n - 1]];
      DstAuthIsFinal(init, events, more[..n - 1]);
      AfterSnoc(init, before, more[n - 1]);
      AuthStays(After(init, before), more[n - 1]);
    }
  }

  lemma DownReceivedKeepsAuth(s: State, r: Reception)
    requires (r.Datagram? ==> |r.payload| <= |s.dst.buf|) && s.dst.auth
    ensures DownAuthReceived(s, r).dst.auth && DownDataReceived(s, r).dst.auth
  {
    hide Store, Begin, Accept;
  }

  lemma DownSentKeepsAuth(s: State, n: nat, ok: bool, reopens: bool)
    requires s.dst.auth
    ensures DownEchoed(s, ok, reopens).dst.auth && DownRelayed(s, n, ok).dst.auth
  {
    hide Complete;
  }

  lemma AuthStays(s: State, e: Event)
    ensures s.dst.auth ==> Step(s, e).dst.auth
  {
    if !DownEvent(e) {
      OthersLeaveDown(s, e);
    } else if s.dst.auth && Possible(s, e) {
      hide DownAuthReceived, DownDataReceived, DownEchoed, DownRelayed;
      match e {
        case DownReceived(r) => DownReceivedKeepsAuth(s, r);
        case DownSent(ok, reopens) => DownSentKeepsAuth(s, if s.down.Send? then s.down.n else 0, ok, reopens);
        case DownResume(_) =>
      }
    }
  }
}
