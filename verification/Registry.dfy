/** Login and close of any number of sessions, interleaved at every lock and every atomic operation. */
module Registry {
  import opened Numbers
  import opened SessionDb

  const FIRST_ID := 1000
  const SERVER := 2
  const ANYONE := 3

  /** Where a session's handler stands between two atomic operations. */
  datatype Pc =
    | Idle           // no handler of the session is in progress
    | GotGuid        // its GUID is in the set; next: allocate an id
    | GotId          // next: enter the id map
    | Undoing        // the id was taken; next: give the GUID back
    | Mapped         // in the id map; next: ask for the peer address and log the addition
    | ClosingGuid    // stopping; next: give the GUID back
    | ClosingDb      // next: log the deletion
    | ClosingMap     // next: leave the id map
    | Closed

  /** `ticket` counts the id allocations made before the session's own; `addr` is the peer address it was listed
      with. */
  datatype Session = Session(
    pc: Pc, running: bool, logined: bool, guid: string, kind: int, ticket: nat, addr: uint32)
  {
    /** From the moment its GUID is inserted until the moment it is given back. */
    predicate Holder() {
      pc.GotGuid? || pc.GotId? || pc.Undoing? || pc.Mapped? || pc.ClosingGuid? || (pc.Idle? && logined)
    }

    predicate Active() {
      running && logined
    }

    /** Logged in by a request that was still queued when the session was stopped; nothing will close it. */
    predicate Stray() {
      pc == Idle && logined && !running
    }

    predicate HasTicket() {
      (!pc.Idle? && !pc.GotGuid?) || (pc.Idle? && logined)
    }

    predicate InMap() {
      Listed(kind) && (pc.Mapped? || pc.ClosingGuid? || pc.ClosingDb? || pc.ClosingMap? || (pc.Idle? && logined))
    }

    predicate InDb() {
      Listed(kind) && (pc.ClosingGuid? || pc.ClosingDb? || (pc.Idle? && logined))
    }
  }

  predicate Listed(kind: int) {
    kind == SERVER || kind == ANYONE
  }

  /** Ids are handed out from 1000 upwards by a 32-bit counter. */
  function IdOf(ticket: nat): uint32 {
    (FIRST_ID + ticket) % UINT32
  }

  /** `guids` maps every GUID in the set to the session that put it there, `ids` is the id map and `log` every
      request made to the directory, with the ticket each is about.  `lostGuids` and `lostTickets` remember
      what a login left behind when the peer address was not to be had. */
  datatype State = State(
    sessions: map<nat, Session>,
    guids: map<string, nat>,
    ids: map<uint32, nat>,
    tickets: nat,
    log: seq<Op>,
    logTickets: seq<nat>,
    lostGuids: set<string>,
    lostTickets: set<nat>)

  const EMPTY := State(map[], map[], map[], 0, [], [], {}, {})

  datatype Event =
    | Accept(k: nat)
    | Login(k: nat, guid: string, kind: int)
    | Proceed(k: nat, addr: Option<uint32>)
    | Stop(k: nat)

  function Put(s: State, k: nat, ss: Session): State {
    s.(sessions := s.sessions[k := ss])
  }

  function Request(s: State, op: Op, ticket: nat): State {
    s.(log := s.log + [op], logTickets := s.logTickets + [ticket])
  }

  /** A login request reaches a session that is not logged in; being stopped does not keep it out. */
  function LoginStep(s: State, k: nat, guid: string, kind: int): State
    requires k in s.sessions
  {
    var ss := s.sessions[k].(guid := guid, kind := kind);
    if s.sessions[k].pc != Idle || s.sessions[k].logined then s
    else if guid in s.guids then Put(s, k, ss)
    else Put(s, k, ss.(pc := GotGuid)).(guids := s.guids[guid := k])
  }

  function StopStep(s: State, k: nat): State
    requires k in s.sessions
  {
    var ss := s.sessions[k];
    if ss.pc != Idle || !ss.running then s
    else Put(s, k, ss.(running := false, pc := if ss.logined then ClosingGuid else Idle))
  }

  /** The next atomic operation of a handler in progress; `addr` is the peer address if it can be had. */
  function ProceedStep(s: State, k: nat, addr: Option<uint32>): State
    requires k in s.sessions
  {
    var ss := s.sessions[k];
    match ss.pc
    case Idle => s
    case Closed => s
    case GotGuid =>
      var t := ss.(ticket := s.tickets);
      Put(s, k, if Listed(ss.kind) then t.(pc := GotId) else t.(pc := Idle, logined := true)).(tickets := s.tickets + 1)
    case GotId =>
      if IdOf(ss.ticket) in s.ids then Put(s, k, ss.(pc := Undoing))
      else Put(s, k, ss.(pc := Mapped)).(ids := s.ids[IdOf(ss.ticket) := k])
    case Undoing => Put(s, k, ss.(pc := Idle)).(guids := s.guids - {ss.guid})
    case Mapped =>
      if addr.None? then
        Put(s, k, ss.(pc := Idle)).(lostGuids := s.lostGuids + {ss.guid}, lostTickets := s.lostTickets + {ss.ticket})
      else
        var info := SessionInfo(IdOf(ss.ticket), addr.value, ss.guid);
        Request(Put(s, k, ss.(pc := Idle, logined := true, addr := addr.value)), Op.Add(info), ss.ticket)
    case ClosingGuid => Put(s, k, ss.(pc := ClosingDb)).(guids := s.guids - {ss.guid})
    case ClosingDb => Request(Put(s, k, ss.(pc := ClosingMap)), Op.Del(IdOf(ss.ticket)), ss.ticket)
    case ClosingMap => Put(s, k, ss.(pc := Closed)).(ids := s.ids - {IdOf(ss.ticket)})
  }

  function Step(s: State, e: Event): State {
    match e
    case Accept(k) => if k in s.sessions then s else Put(s, k, Session(Idle, true, false, "", 0, 0, 0))
    case Login(k, guid, kind) => if k in s.sessions then LoginStep(s, k, guid, kind) else s
    case Proceed(k, addr) => if k in s.sessions then ProceedStep(s, k, addr) else s
    case Stop(k) => if k in s.sessions then StopStep(s, k) else s
  }

  function After(events: seq<Event>): State {
    if events == [] then EMPTY else Step(After(events[..|events| - 1]), events[|events| - 1])
  }

  // ----- GUIDs -----

  /** Every holder owns its GUID in the set, and every GUID in the set has its holder or was lost. */
  ghost predicate GuidInv(s: State) {
    && (forall k :: k in s.sessions && s.sessions[k].Holder() ==>
          && s.sessions[k].guid in s.guids && s.guids[s.sessions[k].guid] == k
          && s.sessions[k].guid !in s.lostGuids)
    && (forall g :: g in s.guids && g !in s.lostGuids ==>
          && s.guids[g] in s.sessions && s.sessions[s.guids[g]].Holder() && s.sessions[s.guids[g]].guid == g)
    && s.lostGuids <= s.guids.Keys
    && (forall k :: k in s.sessions ==> PhaseInv(s.sessions[k]))
  }

  predicate PhaseInv(ss: Session) {
    && (ss.pc.GotGuid? || ss.pc.GotId? || ss.pc.Undoing? || ss.pc.Mapped? ==> !ss.logined)
    && (ss.pc.ClosingGuid? || ss.pc.ClosingDb? || ss.pc.ClosingMap? || ss.pc.Closed? ==> ss.logined && !ss.running)
  }

  lemma StepKeepsGuids(s: State, e: Event)
    requires GuidInv(s)
    ensures GuidInv(Step(s, e))
  {
    if e.Proceed? && e.k in s.sessions {
      ProceedKeepsGuids(s, e.k, e.addr);
    }
  }

  /** Three things can happen to a session's GUID: it is kept, given back, or lost. */
  lemma UpdateKeepsGuids(s: State, t: State, k: nat, ss: Session)
    requires GuidInv(s) && k in s.sessions && PhaseInv(ss)
    requires t.sessions == s.sessions[k := ss] && ss.guid == s.sessions[k].guid
    requires
      || (t.guids == s.guids && t.lostGuids == s.lostGuids && ss.Holder() == s.sessions[k].Holder())
      || (t.guids == s.guids - {ss.guid} && t.lostGuids == s.lostGuids && s.sessions[k].Holder() && !ss.Holder())
      || (t.guids == s.guids && t.lostGuids == s.lostGuids + {ss.guid} && s.sessions[k].Holder() && !ss.Holder())
    ensures GuidInv(t)
  {
  }

  lemma ProceedKeepsGuids(s: State, k: nat, addr: Option<uint32>)
    requires GuidInv(s) && k in s.sessions
    ensures GuidInv(ProceedStep(s, k, addr))
  {
    hide GuidInv;
    assert PhaseInv(s.sessions[k]) by {
      PhaseOf(s, k);
    }
    if !s.sessions[k].pc.Idle? && !s.sessions[k].pc.Closed? {
      var t := ProceedStep(s, k, addr);
      UpdateKeepsGuids(s, t, k, t.sessions[k]);
    }
  }

  lemma PhaseOf(s: State, k: nat)
    requires GuidInv(s) && k in s.sessions
    ensures PhaseInv(s.sessions[k])
  {
  }

  lemma {:induction false} RunsKeepGuids(events: seq<Event>)
    ensures GuidInv(After(events))
    decreases |events|
  {
    if events != [] {
      RunsKeepGuids(events[..|events| - 1]);
      StepKeepsGuids(After(events[..|events| - 1]), events[|events| - 1]);
    }
  }

  /** GUID exclusion: in every interleaving two sessions that are logged in and not stopped have different
      GUIDs, and both GUIDs are in the set. */
  lemma GuidExclusion(events: seq<Event>, j: nat, k: nat)
    requires var s := After(events);
      && j in s.sessions && k in s.sessions && j != k
      && s.sessions[j].Active() && s.sessions[k].Active()
    ensures var s := After(events);
      && s.sessions[j].guid != s.sessions[k].guid
      && {s.sessions[j].guid, s.sessions[k].guid} <= s.guids.Keys
  {
    RunsKeepGuids(events);
  }

  ghost predicate Quiescent(s: State) {
    forall k :: k in s.sessions ==> s.sessions[k].pc.Idle? || s.sessions[k].pc.Closed?
  }

  ghost predicate ActiveGuid(s: State, g: string) {
    exists k :: k in s.sessions && s.sessions[k].Active() && s.sessions[k].guid == g
  }

  /** A login that fails because the peer address is not to be had. */
  predicate LosesAddress(s: State, e: Event) {
    e.Proceed? && e.k in s.sessions && s.sessions[e.k].pc == Mapped && e.addr.None?
  }

  /** A login that succeeds in a session that is not started any more. */
  predicate SucceedsLate(s: State, e: Event) {
    && e.Proceed? && e.k in s.sessions && !s.sessions[e.k].running && !s.sessions[e.k].logined
    && Step(s, e).sessions[e.k].logined
  }

  ghost predicate AddressLost(events: seq<Event>) {
    exists i :: 0 <= i < |events| && LosesAddress(After(events[..i]), events[i])
  }

  ghost predicate LateLogin(events: seq<Event>) {
    exists i :: 0 <= i < |events| && SucceedsLate(After(events[..i]), events[i])
  }

  lemma AddressLostSnoc(events: seq<Event>, e: Event)
    ensures AddressLost(events + [e]) <==> AddressLost(events) || LosesAddress(After(events), e)
  {
    hide LosesAddress, After;
    var all := events + [e];
    assert all[..|events|] == events && all[|events|] == e;
    if AddressLost(events) {
      var i :| 0 <= i < |events| && LosesAddress(After(events[..i]), events[i]);
      assert all[..i] == events[..i] && LosesAddress(After(all[..i]), all[i]);
    }
    if AddressLost(all) {
      var i :| 0 <= i < |all| && LosesAddress(After(all[..i]), all[i]);
      if i < |events| {
        assert all[..i] == events[..i] && all[i] == events[i];
      }
    }
    if LosesAddress(After(events), e) {
      assert LosesAddress(After(all[..|events|]), all[|events|]);
    }
  }

  lemma LateLoginSnoc(events: seq<Event>, e: Event)
    ensures LateLogin(events + [e]) <==> LateLogin(events) || SucceedsLate(After(events), e)
  {
    hide SucceedsLate, After;
    var all := events + [e];
    assert all[..|events|] == events && all[|events|] == e;
    if LateLogin(events) {
      var i :| 0 <= i < |events| && SucceedsLate(After(events[..i]), events[i]);
      assert all[..i] == events[..i] && SucceedsLate(After(all[..i]), all[i]);
    }
    if LateLogin(all) {
      var i :| 0 <= i < |all| && SucceedsLate(After(all[..i]), all[i]);
      if i < |events| {
        assert all[..i] == events[..i] && all[i] == events[i];
      }
    }
    if SucceedsLate(After(events), e) {
      assert SucceedsLate(After(all[..|events|]), all[|events|]);
    }
  }

  ghost predicate HasStray(s: State) {
    exists k :: k in s.sessions && s.sessions[k].Stray()
  }

  /** GUIDs and tickets are lost together, and never found again. */
  lemma StepLoses(s: State, e: Event)
    ensures Step(s, e).lostGuids == {} <==> s.lostGuids == {} && !LosesAddress(s, e)
    ensures Step(s, e).lostTickets == {} <==> s.lostTickets == {} && !LosesAddress(s, e)
  {
  }

  lemma StrayStays(s: State, e: Event, k: nat)
    requires k in s.sessions && s.sessions[k].Stray()
    ensures k in Step(s, e).sessions && Step(s, e).sessions[k].Stray()
  {
  }

  lemma NewStrayIsLate(s: State, e: Event, k: nat)
    requires k in s.sessions ==> PhaseInv(s.sessions[k])
    requires k in Step(s, e).sessions && Step(s, e).sessions[k].Stray()
    ensures (k in s.sessions && s.sessions[k].Stray()) || (e.Proceed? && e.k == k && SucceedsLate(s, e))
  {
    if e.Proceed? {
      hide LoginStep, StopStep;
    } else {
      hide ProceedStep, SucceedsLate;
    }
  }

  lemma LateIsStray(s: State, e: Event)
    requires SucceedsLate(s, e) && PhaseInv(s.sessions[e.k])
    ensures e.k in Step(s, e).sessions && Step(s, e).sessions[e.k].Stray()
  {
  }

  /** A session is stray from the moment it succeeds late, and stays so. */
  lemma StepStrays(s: State, e: Event)
    requires GuidInv(s)
    ensures HasStray(Step(s, e)) <==> HasStray(s) || SucceedsLate(s, e)
  {
    hide Step, PhaseInv;
    var t := Step(s, e);
    if HasStray(s) {
      var k :| k in s.sessions && s.sessions[k].Stray();
      StrayStays(s, e, k);
    }
    if SucceedsLate(s, e) {
      LateIsStray(s, e);
    }
    if HasStray(t) {
      var k :| k in t.sessions && t.sessions[k].Stray();
      NewStrayIsLate(s, e, k);
    }
  }

  lemma {:induction false} LossesOfRun(events: seq<Event>)
    ensures After(events).lostGuids == {} <==> !AddressLost(events)
    ensures After(events).lostTickets == {} <==> !AddressLost(events)
    ensures HasStray(After(events)) <==> LateLogin(events)
    decreases |events|
  {
    hide AddressLost, LateLogin, GuidInv, Step, HasStray, LosesAddress, SucceedsLate;
    if events == [] {
      NoLosses(events);
    } else {
      var before, e := events[..|events| - 1], events[|events| - 1];
      assert events == before + [e];
      LossesOfRun(before);
      RunsKeepGuids(before);
      AddressLostSnoc(before, e);
      LateLoginSnoc(before, e);
      StepLoses(After(before), e);
      StepStrays(After(before), e);
    }
  }

  lemma NoLosses(events: seq<Event>)
    requires events == []
    ensures !AddressLost(events) && !LateLogin(events) && !HasStray(EMPTY)
  {
  }

  lemma GuidSetIffNothingLost(s: State)
    requires GuidInv(s) && Quiescent(s)
    ensures (forall g :: g in s.guids <==> ActiveGuid(s, g)) <==> s.lostGuids == {} && !HasStray(s)
  {
    if s.lostGuids == {} && !HasStray(s) {
      forall g | g in s.guids
        ensures ActiveGuid(s, g)
      {
        assert s.sessions[s.guids[g]].Active();
      }
    } else if s.lostGuids != {} {
      var g :| g in s.lostGuids;
      assert g in s.guids && !ActiveGuid(s, g);
    } else {
      var k :| k in s.sessions && s.sessions[k].Stray();
      var g := s.sessions[k].guid;
      assert g in s.guids && s.guids[g] == k && !ActiveGuid(s, g);
    }
  }

  /** Between handlers the set holds exactly the GUIDs of the active sessions, if and only if no login ever failed
      for want of a peer address and none ever succeeded in a session that had been stopped. */
  lemma GuidSetExact(events: seq<Event>)
    requires Quiescent(After(events))
    ensures var s := After(events);
      (forall g :: g in s.guids <==> ActiveGuid(s, g)) <==> !AddressLost(events) && !LateLogin(events)
  {
    RunsKeepGuids(events);
    LossesOfRun(events);
    GuidSetIffNothingLost(After(events));
  }

  lemma AfterSnoc(events: seq<Event>, e: Event)
    ensures After(events + [e]) == Step(After(events), e)
  {
    assert (events + [e])[..|events|] == events;
  }

  /** A server whose peer address cannot be read fails to log in; its GUID and its id stay taken, and the
      directory never hears of it. */
  lemma LostAddressKeepsGuidAndId(g: string) returns (run: seq<Event>)
    ensures var s := After(run);
      && Quiescent(s) && s.sessions.Keys == {0} && !s.sessions[0].logined && s.log == []
      && g in s.guids && !ActiveGuid(s, g) && s.ids == map[FIRST_ID := 0]
  {
    var accepted := [] + [Accept(0)];
    AfterSnoc([], Accept(0));
    assert After(accepted) == Put(EMPTY, 0, Session(Idle, true, false, "", 0, 0, 0));
    var taken := accepted + [Login(0, g, SERVER)];
    AfterSnoc(accepted, Login(0, g, SERVER));
    assert After(taken) == Put(EMPTY, 0, Session(GotGuid, true, false, g, SERVER, 0, 0)).(guids := map[g := 0]);
    var named := taken + [Proceed(0, None)];
    AfterSnoc(taken, Proceed(0, None));
    var mapped := named + [Proceed(0, None)];
    AfterSnoc(named, Proceed(0, None));
    assert After(mapped).sessions == map[0 := Session(Mapped, true, false, g, SERVER, 0, 0)];
    AfterSnoc(mapped, Proceed(0, None));
    run := mapped + [Proceed(0, None)];
    hide ProceedStep, After;
    assert After(run).sessions == map[0 := Session(Idle, true, false, g, SERVER, 0, 0)];
  }

  /** A login request that was queued behind the timeout: the session is stopped, then logged in, and its
      GUID stays taken with nobody left to give it back. */
  lemma LateLoginKeepsGuid(g: string) returns (run: seq<Event>)
    ensures var s := After(run);
      && Quiescent(s) && g in s.guids && !ActiveGuid(s, g) && After(run + [Stop(0)]) == s
  {
    var accepted := [] + [Accept(0)];
    AfterSnoc([], Accept(0));
    assert After(accepted) == Put(EMPTY, 0, Session(Idle, true, false, "", 0, 0, 0));
    var stopped := accepted + [Stop(0)];
    AfterSnoc(accepted, Stop(0));
    assert After(stopped) == Put(EMPTY, 0, Session(Idle, false, false, "", 0, 0, 0));
    var taken := stopped + [Login(0, g, 1)];
    AfterSnoc(stopped, Login(0, g, 1));
    assert After(taken) == Put(EMPTY, 0, Session(GotGuid, false, false, g, 1, 0, 0)).(guids := map[g := 0]);
    run := taken + [Proceed(0, None)];
    AfterSnoc(taken, Proceed(0, None));
    assert After(run).sessions == map[0 := Session(Idle, false, true, g, 1, 0, 0)] && After(run).guids == map[g := 0];
    AfterSnoc(run, Stop(0));
  }
}
