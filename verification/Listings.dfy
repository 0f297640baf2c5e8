/** Who is listed, and what comes of a login, in the numbers of the protocol. */
module Listings {
  import opened Numbers
  import opened SessionDb
  import opened Registry
  import opened D = Directory
  import opened SessionMgr

  /** Session `k` is in the id map and in the directory, under its own id and with its own address and GUID, exactly
      if its type is 2 or 3; of any other type, its id is not in the directory at all. */
  ghost predicate ListedByType(s: State, k: nat)
    requires k in s.sessions
  {
    var ss := s.sessions[k];
    var id: uint32 := (1000 + ss.ticket) % 4294967296;
    if ss.kind == 2 || ss.kind == 3 then
      && id in s.ids && s.ids[id] == k
      && id in Apply(s.log) && Apply(s.log)[id] == SessionInfo(id, ss.addr, ss.guid)
    else id !in Apply(s.log)
  }

  lemma InvListsByType(s: State, k: nat)
    requires GuidInv(s) && TicketInv(s) && MapInv(s) && DbInv(s) && Fits(s)
    requires k in s.sessions && s.sessions[k].Active()
    ensures ListedByType(s, k)
  {
    hide Apply, GuidInv, TicketInv;
    PhaseOf(s, k);
    var ss := s.sessions[k];
    assert ss.pc == Idle;
    var id := IdOf(ss.ticket);
    if ss.kind != 2 && ss.kind != 3 && id in Apply(s.log) {
      OthersDiffer(s, k);
    }
  }

  /** In every run, while at most 2^32 ids have been allocated, every active session is listed by its type. */
  lemma ActiveIsListed(events: seq<Event>, k: nat)
    requires After(events).tickets <= 4294967296
    requires k in After(events).sessions && After(events).sessions[k].running && After(events).sessions[k].logined
    ensures ListedByType(After(events), k)
  {
    RunsKeepInv(events);
    hide ListedByType, GuidInv, TicketInv, MapInv, LogInv, DbInv, After;
    InvListsByType(After(events), k);
  }

  /** An uninterrupted login request succeeds exactly if its GUID is free and, for types 2 and 3, its id is free and
      the peer address can be had.  The id is the next of the counter that started at 1000. */
  lemma LoginOutcome(s: State, k: nat, guid: string, kind: int, addr: Option<uint32>)
    requires k in s.sessions && s.sessions[k].pc == Idle && !s.sessions[k].logined
    ensures var id: uint32 := (1000 + s.tickets) % 4294967296;
      var t := Drain(LoginStep(s, k, guid, kind), k, addr);
      && (t.sessions[k].logined <==> guid !in s.guids && ((kind == 2 || kind == 3) ==> id !in s.ids && addr != None))
      && (t.sessions[k].logined ==> (1000 + t.sessions[k].ticket) % 4294967296 == id && guid in t.guids)
      && (t.sessions[k].logined && (kind == 2 || kind == 3) ==>
            t.ids == s.ids[id := k] && t.log == s.log + [Op.Add(SessionInfo(id, addr.value, guid))])
      && (t.sessions[k].logined && kind != 2 && kind != 3 ==> t.ids == s.ids && t.log == s.log)
  {
    hide Drain, ProceedStep, LoginStep;
    if guid in s.guids {
      TakenLogin(s, k, guid, kind, addr);
    } else if kind != 2 && kind != 3 {
      UnlistedLogin(s, k, guid, kind, addr);
    } else {
      var u := ListedLogin(s, k, guid, kind, addr);
      if IdOf(s.tickets) in s.ids {
        CollidingLogin(u, k, addr);
      } else {
        MappedLogin(u, k, addr);
      }
    }
  }

  /** While ids do not repeat, a login fails for no other reason than a taken GUID or a lost peer address. */
  lemma LoginSucceeds(events: seq<Event>, k: nat, guid: string, kind: int, addr: Option<uint32>)
    requires After(events).tickets < 4294967296
    requires var s := After(events); k in s.sessions && s.sessions[k].pc == Idle && !s.sessions[k].logined
    ensures var s := After(events);
      Drain(LoginStep(s, k, guid, kind), k, addr).sessions[k].logined
      <==> guid !in s.guids && (kind == 2 || kind == 3 ==> addr != None)
  {
    hide Inv, After, Drain, LoginStep;
    var s := After(events);
    RunsKeepInv(events);
    NextIdIsFree(s);
    LoginOutcome(s, k, guid, kind, addr);
  }

  lemma NextIdIsFree(s: State)
    requires Inv(s) && s.tickets < UINT32
    ensures IdOf(s.tickets) !in s.ids
  {
    hide GuidInv, LogInv, DbInv;
    var id := IdOf(s.tickets);
    if id in s.ids {
      if LostId(s, id) {
        var t :| t in s.lostTickets && IdOf(t) == id;
        IdsDiffer(t, s.tickets);
      } else {
        IdsDiffer(s.sessions[s.ids[id]].ticket, s.tickets);
      }
    }
  }
}
