/** Ids, the id map and the directory log, over the same interleavings, while the 32-bit id counter has not
    wrapped around. */
module Directory {
  import opened Numbers
  import opened SessionDb
  import opened Registry

  ghost predicate Fits(s: State) {
    s.tickets <= UINT32
  }

  lemma IdsDiffer(t: nat, u: nat)
    requires t < UINT32 && u < UINT32 && t != u
    ensures IdOf(t) != IdOf(u)
  {
  }

  /** Tickets are handed out once. */
  ghost predicate TicketInv(s: State) {
    && (forall k :: k in s.sessions && s.sessions[k].HasTicket() ==>
          s.sessions[k].ticket < s.tickets && s.sessions[k].ticket !in s.lostTickets)
    && (forall j, k | j in s.sessions && k in s.sessions ::
          j != k && s.sessions[j].HasTicket() && s.sessions[k].HasTicket() ==>
            s.sessions[j].ticket != s.sessions[k].ticket)
    && (forall t :: t in s.lostTickets ==> t < s.tickets)
  }

  /** The id map holds exactly the listed sessions between their entry and their erasure, and the lost ones. */
  ghost predicate MapInv(s: State) {
    && (forall k :: k in s.sessions && s.sessions[k].InMap() ==>
          IdOf(s.sessions[k].ticket) in s.ids && s.ids[IdOf(s.sessions[k].ticket)] == k)
    && (forall t :: t in s.lostTickets ==> IdOf(t) in s.ids)
    && (forall id :: id in s.ids ==> LostId(s, id) || Registered(s, id))
    && (forall k :: k in s.sessions ==>
          && s.sessions[k].pc != Undoing
          && ((s.sessions[k].pc.GotId? || s.sessions[k].pc.Mapped?) ==> Listed(s.sessions[k].kind)))
  }

  ghost predicate LostId(s: State, id: uint32) {
    exists t :: t in s.lostTickets && IdOf(t) == id
  }

  ghost predicate Registered(s: State, id: uint32) {
    && id in s.ids && s.ids[id] in s.sessions
    && s.sessions[s.ids[id]].InMap() && IdOf(s.sessions[s.ids[id]].ticket) == id
  }

  /** The log never adds an id that it has mentioned before. */
  ghost predicate LogInv(s: State) {
    && |s.log| == |s.logTickets|
    && (forall i :: 0 <= i < |s.log| ==> OpId(s.log[i]) == IdOf(s.logTickets[i]) && s.logTickets[i] < s.tickets)
    && (forall k :: k in s.sessions && (s.sessions[k].pc.GotId? || s.sessions[k].pc.Mapped?) ==>
          s.sessions[k].ticket !in s.logTickets)
    && Ordered(s.log)
  }

  /** The directory that the log describes holds exactly the listed sessions between addition and deletion. */
  ghost predicate DbInv(s: State) {
    && (forall k :: k in s.sessions && s.sessions[k].InDb() ==>
          var id := IdOf(s.sessions[k].ticket);
          id in Apply(s.log) && Apply(s.log)[id] == SessionInfo(id, s.sessions[k].addr, s.sessions[k].guid))
    && (forall id :: id in Apply(s.log) ==> Registered(s, id) && s.sessions[s.ids[id]].InDb())
  }

  ghost predicate Inv(s: State) {
    GuidInv(s) && TicketInv(s) && MapInv(s) && LogInv(s) && DbInv(s)
  }

  lemma IdIsFresh(s: State, k: nat)
    requires TicketInv(s) && MapInv(s) && Fits(s) && k in s.sessions && s.sessions[k].pc == GotId
    ensures IdOf(s.sessions[k].ticket) !in s.ids
  {
    var ticket := s.sessions[k].ticket;
    var id := IdOf(ticket);
    if id in s.ids {
      if LostId(s, id) {
        var t :| t in s.lostTickets && IdOf(t) == id;
        IdsDiffer(t, ticket);
      } else {
        IdsDiffer(s.sessions[s.ids[id]].ticket, ticket);
      }
    }
  }

  /** A ticket stays with its session, is drawn afresh, or is lost. */
  lemma UpdateKeepsTickets(s: State, t: State, k: nat, ss: Session)
    requires TicketInv(s) && k in s.sessions && t.sessions == s.sessions[k := ss]
    requires
      || (t.tickets == s.tickets && t.lostTickets == s.lostTickets
          && (ss.HasTicket() ==> s.sessions[k].HasTicket() && ss.ticket == s.sessions[k].ticket))
      || (t.tickets == s.tickets + 1 && t.lostTickets == s.lostTickets && ss.ticket == s.tickets)
      || (t.tickets == s.tickets && t.lostTickets == s.lostTickets + {ss.ticket}
          && s.sessions[k].HasTicket() && ss.ticket == s.sessions[k].ticket && !ss.HasTicket())
    ensures TicketInv(t)
  {
  }

  lemma ProceedKeepsTickets(s: State, k: nat, addr: Option<uint32>)
    requires GuidInv(s) && TicketInv(s) && k in s.sessions
    ensures TicketInv(ProceedStep(s, k, addr))
  {
    hide GuidInv, TicketInv;
    PhaseOf(s, k);
    if !s.sessions[k].pc.Idle? && !s.sessions[k].pc.Closed? {
      var t := ProceedStep(s, k, addr);
      UpdateKeepsTickets(s, t, k, t.sessions[k]);
    }
  }

  /** Nobody else's ticket, lost or held, has the id of a session that holds a ticket. */
  lemma OthersDiffer(s: State, k: nat)
    requires TicketInv(s) && Fits(s) && k in s.sessions && s.sessions[k].HasTicket()
    ensures forall j :: j in s.sessions && j != k && s.sessions[j].HasTicket() ==>
              IdOf(s.sessions[j].ticket) != IdOf(s.sessions[k].ticket)
    ensures forall t :: t in s.lostTickets ==> IdOf(t) != IdOf(s.sessions[k].ticket)
  {
    forall j | j in s.sessions && j != k && s.sessions[j].HasTicket()
      ensures IdOf(s.sessions[j].ticket) != IdOf(s.sessions[k].ticket)
    {
      IdsDiffer(s.sessions[j].ticket, s.sessions[k].ticket);
    }
    forall t | t in s.lostTickets
      ensures IdOf(t) != IdOf(s.sessions[k].ticket)
    {
      IdsDiffer(t, s.sessions[k].ticket);
    }
  }

  /** Lost ids and registrations of other sessions survive whatever session `k` does to its own id. */
  lemma EnterKeepsMap(s: State, k: nat)
    requires TicketInv(s) && MapInv(s) && Fits(s) && k in s.sessions && s.sessions[k].pc == GotId
    ensures MapInv(ProceedStep(s, k, None)) && ProceedStep(s, k, None).sessions[k].pc == Mapped
  {
    IdIsFresh(s, k);
    var t := ProceedStep(s, k, None);
    forall id | id in t.ids
      ensures LostId(t, id) || Registered(t, id)
    {
      if id != IdOf(s.sessions[k].ticket) {
        assert LostId(s, id) || Registered(s, id);
      }
    }
  }

  lemma LeaveKeepsMap(s: State, k: nat)
    requires TicketInv(s) && MapInv(s) && Fits(s) && k in s.sessions && s.sessions[k].pc == ClosingMap
    ensures MapInv(ProceedStep(s, k, None))
  {
    OthersDiffer(s, k);
    var t := ProceedStep(s, k, None);
    forall id | id in t.ids
      ensures LostId(t, id) || Registered(t, id)
    {
      assert LostId(s, id) || Registered(s, id);
    }
  }

  /** Any other step leaves the id map alone. */
  lemma StayKeepsMap(s: State, t: State, k: nat, ss: Session)
    requires MapInv(s) && k in s.sessions && t.sessions == s.sessions[k := ss] && t.ids == s.ids
    requires ss.pc != Undoing && ((ss.pc.GotId? || ss.pc.Mapped?) ==> Listed(ss.kind))
    requires
      || (t.lostTickets == s.lostTickets && ss.InMap() == s.sessions[k].InMap()
          && (ss.InMap() ==> ss.ticket == s.sessions[k].ticket))
      || (t.lostTickets == s.lostTickets + {ss.ticket} && s.sessions[k].InMap() && !ss.InMap()
          && ss.ticket == s.sessions[k].ticket)
    ensures MapInv(t)
  {
    forall id | id in t.ids
      ensures LostId(t, id) || Registered(t, id)
    {
      assert LostId(s, id) || Registered(s, id);
      if LostId(s, id) {
        var u :| u in s.lostTickets && IdOf(u) == id;
        assert u in t.lostTickets;
      } else if s.ids[id] == k && !ss.InMap() {
        assert ss.ticket in t.lostTickets;
      }
    }
  }

  lemma ProceedKeepsMap(s: State, k: nat, addr: Option<uint32>)
    requires GuidInv(s) && TicketInv(s) && MapInv(s) && k in s.sessions && Fits(s)
    ensures MapInv(ProceedStep(s, k, addr))
  {
    hide Registered, LostId, GuidInv, TicketInv;
    assert PhaseInv(s.sessions[k]) by {
      PhaseOf(s, k);
    }
    var t := ProceedStep(s, k, addr);
    var pc := s.sessions[k].pc;
    if pc == GotId {
      EnterKeepsMap(s, k);
    } else if pc == ClosingMap {
      LeaveKeepsMap(s, k);
    } else if pc.GotGuid? || pc.Mapped? || pc.ClosingGuid? || pc.ClosingDb? {
      StayKeepsMap(s, t, k, t.sessions[k]);
    }
  }

  /** A step that logs nothing: a session about to log either was so before or has just drawn its ticket. */
  lemma StayKeepsLog(s: State, t: State, k: nat, ss: Session)
    requires LogInv(s) && k in s.sessions && t.sessions == s.sessions[k := ss]
    requires t.log == s.log && t.logTickets == s.logTickets && t.tickets >= s.tickets
    requires (ss.pc.GotId? || ss.pc.Mapped?) ==>
               || ss.ticket == s.tickets
               || ((s.sessions[k].pc.GotId? || s.sessions[k].pc.Mapped?) && ss.ticket == s.sessions[k].ticket)
    ensures LogInv(t)
  {
  }

  /** A step that logs a request about the session's own ticket, which no other session is about to log. */
  lemma GrowKeepsLog(s: State, t: State, k: nat, ss: Session, op: Op)
    requires TicketInv(s) && LogInv(s) && k in s.sessions && s.sessions[k].HasTicket()
    requires t.sessions == s.sessions[k := ss] && !ss.pc.GotId? && !ss.pc.Mapped? && t.tickets == s.tickets
    requires t.log == s.log + [op] && t.logTickets == s.logTickets + [s.sessions[k].ticket]
    requires OpId(op) == IdOf(s.sessions[k].ticket) && Ordered(t.log)
    ensures LogInv(t)
  {
  }

  lemma AddIsOrdered(s: State, k: nat, info: SessionInfo)
    requires TicketInv(s) && LogInv(s) && Fits(s) && k in s.sessions && s.sessions[k].pc == Mapped
    requires info.id == IdOf(s.sessions[k].ticket)
    ensures Ordered(s.log + [Op.Add(info)])
  {
    var ticket := s.sessions[k].ticket;
    forall i | 0 <= i < |s.log|
      ensures OpId(s.log[i]) != info.id
    {
      assert s.logTickets[i] in s.logTickets;
      IdsDiffer(s.logTickets[i], ticket);
    }
  }

  lemma DelIsOrdered(log: seq<Op>, id: uint32)
    requires Ordered(log)
    ensures Ordered(log + [Op.Del(id)])
  {
  }

  lemma ProceedKeepsLog(s: State, k: nat, addr: Option<uint32>)
    requires TicketInv(s) && LogInv(s) && k in s.sessions && Fits(s)
    ensures LogInv(ProceedStep(s, k, addr))
  {
    var ss, t := s.sessions[k], ProceedStep(s, k, addr);
    if ss.pc == Mapped && addr.Some? {
      var info := SessionInfo(IdOf(ss.ticket), addr.value, ss.guid);
      AddIsOrdered(s, k, info);
      GrowKeepsLog(s, t, k, t.sessions[k], Op.Add(info));
    } else if ss.pc == ClosingDb {
      assert Ordered(s.log);
      DelIsOrdered(s.log, IdOf(ss.ticket));
      GrowKeepsLog(s, t, k, t.sessions[k], Op.Del(IdOf(ss.ticket)));
    } else if !ss.pc.Idle? && !ss.pc.Closed? {
      hide LogInv, TicketInv;
      StayKeepsLog(s, t, k, t.sessions[k]);
    }
  }

  // ----- The directory -----

  /** A step that logs nothing leaves the registrations of directory entries alone. */
  lemma StayKeepsDb(s: State, t: State, k: nat, ss: Session)
    requires DbInv(s) && k in s.sessions && t.sessions == s.sessions[k := ss] && t.log == s.log
    requires ss.InDb() == s.sessions[k].InDb()
    requires ss.InDb() ==>
               ss.ticket == s.sessions[k].ticket && ss.guid == s.sessions[k].guid && ss.addr == s.sessions[k].addr
    requires forall id :: id in s.ids && s.ids[id] != k ==> id in t.ids && t.ids[id] == s.ids[id]
    requires s.sessions[k].InDb() ==> t.ids == s.ids
    ensures DbInv(t)
  {
  }

  lemma AddKeepsDb(s: State, t: State, k: nat, ss: Session, info: SessionInfo)
    requires TicketInv(s) && MapInv(s) && DbInv(s) && Fits(s) && k in s.sessions && s.sessions[k].pc == Mapped
    requires t.sessions == s.sessions[k := ss] && t.ids == s.ids
    requires ss == s.sessions[k].(pc := Idle, logined := true, addr := info.addr)
    requires t.log == s.log + [Op.Add(info)] && info.id == IdOf(ss.ticket) && info.guid == ss.guid
    ensures DbInv(t)
  {
    OthersDiffer(s, k);
    assert t.log[..|s.log|] == s.log;
    assert info.id !in Apply(s.log);
    assert Apply(t.log) == Apply(s.log)[info.id := info];
  }

  lemma DelKeepsDb(s: State, t: State, k: nat, ss: Session)
    requires TicketInv(s) && MapInv(s) && DbInv(s) && Fits(s) && k in s.sessions && s.sessions[k].pc == ClosingDb
    requires t.sessions == s.sessions[k := ss] && t.ids == s.ids
    requires ss == s.sessions[k].(pc := ClosingMap)
    requires t.log == s.log + [Op.Del(IdOf(ss.ticket))]
    ensures DbInv(t)
  {
    hide MapInv, TicketInv, Ordered;
    OthersDiffer(s, k);
    assert t.log[..|s.log|] == s.log;
    assert Apply(t.log) == Apply(s.log) - {IdOf(ss.ticket)};
    forall id | id in Apply(t.log)
      ensures Registered(t, id) && t.sessions[t.ids[id]].InDb()
    {
      assert Registered(s, id) && s.ids[id] != k;
    }
  }

  lemma ProceedKeepsDb(s: State, k: nat, addr: Option<uint32>)
    requires GuidInv(s) && TicketInv(s) && MapInv(s) && DbInv(s) && k in s.sessions && Fits(s)
    ensures DbInv(ProceedStep(s, k, addr))
  {
    var ss, t := s.sessions[k], ProceedStep(s, k, addr);
    if ss.pc == Mapped && addr.Some? {
      AddKeepsDb(s, t, k, t.sessions[k], SessionInfo(IdOf(ss.ticket), addr.value, ss.guid));
    } else if ss.pc == ClosingDb {
      DelKeepsDb(s, t, k, t.sessions[k]);
    } else if !ss.pc.Idle? && !ss.pc.Closed? {
      PhaseOf(s, k);
      if ss.pc == GotId {
        IdIsFresh(s, k);
      } else if ss.pc == ClosingMap {
        OthersDiffer(s, k);
        ErasedIsOwn(s, k);
      }
      hide DbInv, MapInv, TicketInv, GuidInv;
      StayKeepsDb(s, t, k, t.sessions[k]);
    }
  }

  /** The id a closing session erases from the map is nobody else's. */
  lemma ErasedIsOwn(s: State, k: nat)
    requires TicketInv(s) && MapInv(s) && Fits(s) && k in s.sessions && s.sessions[k].pc == ClosingMap
    ensures var id := IdOf(s.sessions[k].ticket); id in s.ids ==> s.ids[id] == k
  {
    OthersDiffer(s, k);
    var id := IdOf(s.sessions[k].ticket);
    if id in s.ids {
      assert LostId(s, id) || Registered(s, id);
    }
  }

  // ----- Whole runs -----

  lemma StepKeepsInv(s: State, e: Event)
    requires Inv(s) && Fits(Step(s, e))
    ensures Inv(Step(s, e))
  {
    StepKeepsGuids(s, e);
    var t := Step(s, e);
    if e.k in s.sessions && e.Proceed? {
      ProceedKeepsTickets(s, e.k, e.addr);
      ProceedKeepsMap(s, e.k, e.addr);
      ProceedKeepsLog(s, e.k, e.addr);
      ProceedKeepsDb(s, e.k, e.addr);
    } else if e.k in s.sessions && t != s {
      LocalKeepsInv(s, t, e.k, t.sessions[e.k]);
    } else if t != s {
      AcceptKeepsInv(s, e.k);
    }
  }

  /** A login attempt or a stop request touches no ticket, id or log entry. */
  lemma LocalKeepsInv(s: State, t: State, k: nat, ss: Session)
    requires Inv(s) && GuidInv(t) && k in s.sessions && Fits(s)
    requires t.(guids := s.guids) == Registry.Put(s, k, ss)
    requires (ss.pc.Idle? || ss.pc.GotGuid? || ss.pc.ClosingGuid?) && s.sessions[k].pc == Idle
    requires ss.logined == s.sessions[k].logined
    requires (ss.pc == GotGuid ==> !ss.logined) && (ss.pc == ClosingGuid ==> ss.logined)
    requires ss.logined ==> ss == s.sessions[k].(pc := ss.pc, running := false)
    ensures Inv(t)
  {
    hide GuidInv, TicketInv, MapInv, LogInv, DbInv;
    UpdateKeepsTickets(s, t, k, ss);
    StayKeepsMap(s, t, k, ss);
    StayKeepsLog(s, t, k, ss);
    StayKeepsDb(s, t, k, ss);
  }

  lemma AcceptKeepsMap(s: State, k: nat)
    requires MapInv(s) && k !in s.sessions
    ensures MapInv(Step(s, Accept(k)))
  {
    var t := Step(s, Accept(k));
    forall id | id in t.ids
      ensures LostId(t, id) || Registered(t, id)
    {
      assert LostId(s, id) || Registered(s, id);
    }
  }

  lemma AcceptKeepsInv(s: State, k: nat)
    requires Inv(s) && k !in s.sessions
    ensures Inv(Step(s, Accept(k)))
  {
    hide MapInv, LogInv, DbInv, GuidInv;
    StepKeepsGuids(s, Accept(k));
    AcceptKeepsMap(s, k);
    AcceptKeepsLog(s, k);
    AcceptKeepsDb(s, k);
  }

  lemma AcceptKeepsLog(s: State, k: nat)
    requires LogInv(s) && k !in s.sessions
    ensures LogInv(Step(s, Accept(k)))
  {
  }

  lemma AcceptKeepsDb(s: State, k: nat)
    requires DbInv(s) && k !in s.sessions
    ensures DbInv(Step(s, Accept(k)))
  {
  }

  lemma {:induction false} RunsKeepInv(events: seq<Event>)
    requires Fits(After(events))
    ensures Inv(After(events))
    decreases |events|
  {
    if events != [] {
      var before, e := events[..|events| - 1], events[|events| - 1];
      assert After(before).tickets <= After(events).tickets;
      RunsKeepInv(before);
      StepKeepsInv(After(before), e);
    }
  }

  /** While at most 2^32 ids have been allocated, sessions that are logged in and not yet closed have pairwise
      different ids, however often they failed to log in before. */
  lemma IdsAreDistinct(events: seq<Event>, j: nat, k: nat)
    requires var s := After(events);
      && Fits(s) && j in s.sessions && k in s.sessions && j != k
      && s.sessions[j].Active() && s.sessions[k].Active()
    ensures var s := After(events); IdOf(s.sessions[j].ticket) != IdOf(s.sessions[k].ticket)
  {
    RunsKeepInv(events);
    OthersDiffer(After(events), k);
  }

  ghost predicate ListedAs(s: State, id: uint32) {
    exists k :: k in s.sessions && s.sessions[k].InDb() && IdOf(s.sessions[k].ticket) == id
  }

  /** In every interleaving the log is ordered, so the directory it describes holds exactly what was added and
      not deleted; and that is exactly the listed sessions that are logged in and not yet struck off. */
  lemma LogDescribesSessions(events: seq<Event>, info: SessionInfo)
    requires Fits(After(events))
    ensures var s := After(events);
      && Ordered(s.log)
      && ((info.id in Apply(s.log) && Apply(s.log)[info.id] == info)
          <==> Added(s.log, info) && !Deleted(s.log, info.id))
      && (info.id in Apply(s.log) <==> ListedAs(s, info.id))
  {
    RunsKeepInv(events);
    var s := After(events);
    DirectoryIsAddedNotDeleted(s.log, info);
    if info.id in Apply(s.log) {
      var k := s.ids[info.id];
      assert s.sessions[k].InDb() && IdOf(s.sessions[k].ticket) == info.id;
    }
  }

  lemma MapMatchesIffNoneLost(s: State)
    requires Inv(s) && Quiescent(s) && Fits(s)
    ensures s.ids.Keys == Apply(s.log).Keys <==> s.lostTickets == {}
  {
    hide GuidInv, LogInv, Apply;
    if s.lostTickets == {} {
      forall id | id in s.ids
        ensures id in Apply(s.log)
      {
        assert LostId(s, id) || Registered(s, id);
      }
    } else {
      var t :| t in s.lostTickets;
      var id := IdOf(t);
      if id in Apply(s.log) {
        OthersDiffer(s, s.ids[id]);
      }
      assert id in s.ids && id !in Apply(s.log);
    }
  }

  /** Between handlers the id map and the directory agree exactly when no login ever failed for want of a peer
      address. */
  lemma MapMatchesDirectory(events: seq<Event>)
    requires Fits(After(events)) && Quiescent(After(events))
    ensures var s := After(events); s.ids.Keys == Apply(s.log).Keys <==> !AddressLost(events)
  {
    hide AddressLost, LateLogin, HasStray, Inv, Apply;
    LossesOfRun(events);
    RunsKeepInv(events);
    MapMatchesIffNoneLost(After(events));
  }
}
