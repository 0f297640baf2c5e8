/** The session manager as the program has it.  Run without interruption, its handlers do what the interleaved
    steps of `Registry` do one after the other. */
module SessionMgr {
  import opened Numbers
  import opened SessionDb
  import A = Admission
  import R = Registry

  class CSafeSet<T(==)> {
    var items: set<T>

    constructor ()
      ensures items == {}
    {
      items := {};
    }

    method Insert(item: T) returns (ok: bool)
      modifies this
      ensures ok == (item !in old(items)) && items == old(items) + {item}
    {
      if item in items {
        return false;
      }
      items := items + {item};
      return true;
    }

    method Remove(item: T) returns (ok: bool)
      modifies this
      ensures ok == (item in old(items)) && items == old(items) - {item}
    {
      if item !in items {
        return false;
      }
      items := items - {item};
      return true;
    }
  }

  /** What a login request is answered with. */
  datatype LoginResponse = LoginSuccess(id: uint32) | LoginFailed | LoginRepeated(id: uint32)

  /** The fields of a session that login and close work on; its reader and writer are in module `Session`.
      `timing` says that the login timer is still running. */
  class CSession {
    var id: uint32
    var guid: string
    var kind: int
    var privateAddr: uint32
    var logined: bool
    var started: bool
    var timing: bool
    var srcChannels: set<nat>
    var dstChannels: set<nat>

    /** The session object agrees with its entry in the interleaved model. */
    ghost predicate Is(r: R.Session)
      reads this
    {
      && guid == r.guid && kind == r.kind && logined == r.logined && started == r.running
      && (r.HasTicket() ==> id == R.IdOf(r.ticket))
    }

    constructor ()
      ensures Is(R.Session(R.Idle, true, false, "", 0, 0, 0))
    {
      id, guid, kind, privateAddr, logined, started, timing := 0, "", 0, 0, false, true, true;
      srcChannels, dstChannels := {}, {};
    }
  }

  function Rank(pc: R.Pc): nat {
    match pc
    case Idle => 0
    case Closed => 0
    case GotGuid => 4
    case GotId => 3
    case Undoing => 1
    case Mapped => 1
    case ClosingGuid => 3
    case ClosingDb => 2
    case ClosingMap => 1
  }

  /** Let the handler of session `k` run to its end, without interruption. */
  function Drain(s: R.State, k: nat, addr: Option<uint32>): (t: R.State)
    requires k in s.sessions
    ensures k in t.sessions && Rank(t.sessions[k].pc) == 0
    decreases Rank(s.sessions[k].pc)
  {
    if Rank(s.sessions[k].pc) == 0 then s else Drain(R.ProceedStep(s, k, addr), k, addr)
  }

  /** What an uninterrupted handler leaves behind. */
  ghost predicate Leaves(
      t: R.State, k: nat, r: R.Session,
      guids: set<string>, ids: map<uint32, nat>, tickets: nat, log: seq<Op>)
  {
    && k in t.sessions && t.sessions[k] == r
    && t.guids.Keys == guids && t.ids == ids && t.tickets == tickets && t.log == log
  }

  lemma DrainFrom(s: R.State, k: nat, addr: Option<uint32>, t: R.State)
    requires k in s.sessions && Rank(s.sessions[k].pc) > 0 && t == R.ProceedStep(s, k, addr)
    ensures k in t.sessions && Drain(s, k, addr) == Drain(t, k, addr)
  {
  }

  lemma DrainIdle(s: R.State, k: nat, addr: Option<uint32>)
    requires k in s.sessions && Rank(s.sessions[k].pc) == 0
    ensures Drain(s, k, addr) == s
  {
  }

  /** A login whose GUID is taken. */
  lemma TakenLogin(s: R.State, k: nat, guid: string, kind: int, addr: Option<uint32>)
    requires k in s.sessions && s.sessions[k].pc == R.Idle && !s.sessions[k].logined && guid in s.guids
    ensures Leaves(Drain(R.LoginStep(s, k, guid, kind), k, addr), k,
                   s.sessions[k].(guid := guid, kind := kind), s.guids.Keys, s.ids, s.tickets, s.log)
  {
  }

  /** A login whose GUID is free and whose session is not listed. */
  lemma UnlistedLogin(s: R.State, k: nat, guid: string, kind: int, addr: Option<uint32>)
    requires k in s.sessions && s.sessions[k].pc == R.Idle && !s.sessions[k].logined
    requires guid !in s.guids && !R.Listed(kind)
    ensures Leaves(Drain(R.LoginStep(s, k, guid, kind), k, addr), k,
                   s.sessions[k].(guid := guid, kind := kind, ticket := s.tickets, logined := true),
                   s.guids.Keys + {guid}, s.ids, s.tickets + 1, s.log)
  {
    var s1 := R.LoginStep(s, k, guid, kind);
    DrainFrom(s1, k, addr, R.ProceedStep(s1, k, addr));
  }

  /** The same up to the id map: the ticket is drawn and the GUID is in the set. */
  lemma ListedLogin(s: R.State, k: nat, guid: string, kind: int, addr: Option<uint32>) returns (u: R.State)
    requires k in s.sessions && s.sessions[k].pc == R.Idle && !s.sessions[k].logined
    requires guid !in s.guids && R.Listed(kind)
    ensures Leaves(u, k, s.sessions[k].(guid := guid, kind := kind, ticket := s.tickets, pc := R.GotId),
                   s.guids.Keys + {guid}, s.ids, s.tickets + 1, s.log)
    ensures Drain(R.LoginStep(s, k, guid, kind), k, addr) == Drain(u, k, addr)
  {
    var s1 := R.LoginStep(s, k, guid, kind);
    u := R.ProceedStep(s1, k, addr);
    DrainFrom(s1, k, addr, u);
  }

  lemma CollidingLogin(u: R.State, k: nat, addr: Option<uint32>)
    requires k in u.sessions && u.sessions[k].pc == R.GotId && R.IdOf(u.sessions[k].ticket) in u.ids
    ensures Leaves(Drain(u, k, addr), k, u.sessions[k].(pc := R.Idle),
                   u.guids.Keys - {u.sessions[k].guid}, u.ids, u.tickets, u.log)
  {
    var v := R.ProceedStep(u, k, addr);
    DrainFrom(u, k, addr, v);
    DrainFrom(v, k, addr, R.ProceedStep(v, k, addr));
  }

  lemma MappedLogin(u: R.State, k: nat, addr: Option<uint32>)
    requires k in u.sessions && u.sessions[k].pc == R.GotId && R.IdOf(u.sessions[k].ticket) !in u.ids
    ensures var r, id := u.sessions[k], R.IdOf(u.sessions[k].ticket);
      Leaves(Drain(u, k, addr), k,
             r.(pc := R.Idle, logined := addr.Some? || r.logined, addr := if addr.Some? then addr.value else r.addr),
             u.guids.Keys, u.ids[id := k], u.tickets,
             if addr.None? then u.log else u.log + [Op.Add(SessionInfo(id, addr.value, r.guid))])
  {
    var v := R.ProceedStep(u, k, addr);
    DrainFrom(u, k, addr, v);
    DrainFrom(v, k, addr, R.ProceedStep(v, k, addr));
  }

  lemma FullClose(s: R.State, k: nat)
    requires k in s.sessions && s.sessions[k].pc == R.Idle && s.sessions[k].logined && s.sessions[k].running
    ensures var r, id := s.sessions[k], R.IdOf(s.sessions[k].ticket);
      Leaves(Drain(R.StopStep(s, k), k, None), k, r.(pc := R.Closed, running := false),
             s.guids.Keys - {r.guid}, s.ids - {id}, s.tickets, s.log + [Op.Del(id)])
  {
    var s1 := R.StopStep(s, k);
    var s2 := R.ProceedStep(s1, k, None);
    var s3 := R.ProceedStep(s2, k, None);
    DrainFrom(s1, k, None, s2);
    DrainFrom(s2, k, None, s3);
    DrainFrom(s3, k, None, R.ProceedStep(s3, k, None));
  }

  /** A login of a session that is logged in already. */
  lemma RepeatedLogin(s: R.State, k: nat, guid: string, kind: int, addr: Option<uint32>)
    requires k in s.sessions && s.sessions[k].pc == R.Idle && s.sessions[k].logined
    ensures Drain(R.LoginStep(s, k, guid, kind), k, addr) == s
  {
  }

  /** A login only looks at the GUID and type it brings. */
  lemma LoginOverwrites(s: R.State, k: nat, guid: string, kind: int)
    requires k in s.sessions && s.sessions[k].pc == R.Idle && !s.sessions[k].logined
    ensures var t := s.(sessions := s.sessions[k := s.sessions[k].(guid := guid, kind := kind)]);
      R.LoginStep(t, k, guid, kind) == R.LoginStep(s, k, guid, kind)
  {
    var ss := s.sessions[k].(guid := guid, kind := kind);
    assert s.sessions[k := ss][k := ss] == s.sessions[k := ss];
    assert s.sessions[k := ss][k := ss.(pc := R.GotGuid)] == s.sessions[k := ss.(pc := R.GotGuid)];
  }

  lemma StopLeaves(s: R.State, k: nat)
    requires k in s.sessions && s.sessions[k].pc == R.Idle
    ensures var r, t := s.sessions[k], Drain(R.StopStep(s, k), k, None).sessions[k];
      t == if r.logined && r.running then r.(pc := R.Closed, running := false) else r.(running := false)
  {
    hide Drain, R.ProceedStep;
    if s.sessions[k].logined && s.sessions[k].running {
      FullClose(s, k);
    } else {
      DrainIdle(R.StopStep(s, k), k, None);
    }
  }

  class CSessionMgr {
    const guidSet: CSafeSet<string>
    const ssDb: SessionDb
    const server: A.CServer
    var ssMap: map<uint32, nat>
    var sessionId: uint32

    ghost predicate In(s: R.State)
      reads this, guidSet, ssDb
    {
      && guidSet.items == s.guids.Keys && ssMap == s.ids && sessionId == R.IdOf(s.tickets)
      && ssDb.Valid() && ssDb.log == s.log
    }

    constructor (server: A.CServer)
      ensures In(R.EMPTY) && fresh(guidSet) && fresh(ssDb) && this.server == server
    {
      this.server := server;
      guidSet := new CSafeSet();
      ssDb := new SessionDb();
      ssMap, sessionId := map[], R.FIRST_ID;
    }

    method AddSession(id: uint32, k: nat) returns (ok: bool)
      modifies this`ssMap
      ensures ok == (id !in old(ssMap))
      ensures ssMap == if ok then old(ssMap)[id := k] else old(ssMap)
    {
      if id in ssMap {
        return false;
      }
      ssMap := ssMap[id := k];
      return true;
    }

    method OnSessionLogin(ss: CSession, k: nat, addr: Option<uint32>, ghost s: R.State) returns (ok: bool)
      requires In(s) && k in s.sessions && s.sessions[k].pc == R.Idle && ss.Is(s.sessions[k]) && !ss.logined
      modifies this, guidSet, ssDb`opStack, ssDb`log, ss`id
      ensures var t := Drain(R.LoginStep(s, k, ss.guid, ss.kind), k, addr);
        && In(t) && ok == t.sessions[k].logined
        && (ok ==> ss.id == R.IdOf(t.sessions[k].ticket))
        && t.sessions[k].guid == ss.guid && t.sessions[k].kind == ss.kind && t.sessions[k].running == ss.started
        && t.sessions[k].pc == R.Idle
    {
      hide Drain, Rank, R.ProceedStep, R.LoginStep, Apply, IsSnapshot;
      ok := guidSet.Insert(ss.guid);
      if !ok {
        TakenLogin(s, k, ss.guid, ss.kind, addr);
        return false;
      }
      ss.id := sessionId;
      sessionId := (sessionId + 1) % UINT32;
      if ss.kind == R.SERVER || ss.kind == R.ANYONE {
        ghost var u := ListedLogin(s, k, ss.guid, ss.kind, addr);
        ok := Enlist(ss, k, addr, u);
      } else {
        UnlistedLogin(s, k, ss.guid, ss.kind, addr);
      }
    }

    /** The part of the login that makes a server session known to others. */
    method Enlist(ss: CSession, k: nat, addr: Option<uint32>, ghost u: R.State) returns (ok: bool)
      requires In(u) && k in u.sessions && u.sessions[k].pc == R.GotId && !u.sessions[k].logined
      requires ss.guid == u.sessions[k].guid && ss.id == R.IdOf(u.sessions[k].ticket)
      modifies this`ssMap, guidSet, ssDb`opStack, ssDb`log
      ensures In(Drain(u, k, addr))
      ensures var r := Drain(u, k, addr).sessions[k]; r == u.sessions[k].(pc := R.Idle, logined := ok, addr := r.addr)
    {
      hide Drain, Rank, R.ProceedStep, R.IdOf, Apply, IsSnapshot;
      ok := AddSession(ss.id, k);
      if !ok {
        CollidingLogin(u, k, addr);
        var _ := guidSet.Remove(ss.guid);
        return false;
      }
      MappedLogin(u, k, addr);
      if addr == None {
        return false;
      }
      ssDb.Add(SessionInfo(ss.id, addr.value, ss.guid));
      return true;
    }

    /** `onReqLogin`: the request's GUID and type are kept even when the login fails, and only a success stops the
        login timer. */
    method OnReqLogin(
        ss: CSession, k: nat, guid: string, privateAddr: uint32, kind: int, addr: Option<uint32>, ghost s: R.State)
      returns (resp: LoginResponse)
      requires In(s) && k in s.sessions && s.sessions[k].pc == R.Idle && ss.Is(s.sessions[k])
      modifies this, guidSet, ssDb`opStack, ssDb`log, ss
      ensures var t := Drain(R.LoginStep(s, k, guid, kind), k, addr); In(t) && ss.Is(t.sessions[k])
      ensures resp == if old(ss.logined) then LoginRepeated(old(ss.id))
                      else if ss.logined then LoginSuccess(ss.id) else LoginFailed
      ensures ss.privateAddr == if old(ss.logined) then old(ss.privateAddr) else privateAddr
      ensures ss.timing == (old(ss.timing) && (old(ss.logined) || !ss.logined))
    {
      hide Drain, R.LoginStep, R.ProceedStep, Apply, IsSnapshot;
      if !ss.logined {
        ss.guid := guid;
        ss.privateAddr := privateAddr;
        ss.kind := kind;
        ghost var s' := s.(sessions := s.sessions[k := s.sessions[k].(guid := guid, kind := kind)]);
        LoginOverwrites(s, k, guid, kind);
        ss.logined := OnSessionLogin(ss, k, addr, s');
        if ss.logined {
          resp := LoginSuccess(ss.id);
          ss.timing := false;
        } else {
          resp := LoginFailed;
        }
      } else {
        RepeatedLogin(s, k, guid, kind, addr);
        resp := LoginRepeated(ss.id);
      }
    }

    /** `closeSessionWithLock`: whether logged in or not, the server counts the session off, if it still exists. */
    method CloseSession(ss: CSession, serverAlive: bool, ghost k: nat, ghost s: R.State)
      requires In(s) && k in s.sessions && s.sessions[k].pc == R.Idle && s.sessions[k].running
      requires ss.guid == s.sessions[k].guid && ss.logined == s.sessions[k].logined
      requires ss.logined ==> ss.id == R.IdOf(s.sessions[k].ticket)
      requires serverAlive ==> k in server.open
      modifies this, guidSet, ssDb`opStack, ssDb`log, server
      ensures In(Drain(R.StopStep(s, k), k, None))
      ensures server.Now()
           == if serverAlive then A.Step(old(server.Now()), server.maxSessions, A.Close(k)) else old(server.Now())
    {
      hide Drain, R.ProceedStep, A.Step;
      if ss.logined {
        FullClose(s, k);
        var _ := guidSet.Remove(ss.guid);
        ssDb.Del(ss.id);
        ssMap := ssMap - {ss.id};
      } else {
        DrainIdle(R.StopStep(s, k), k, None);
      }
      if serverAlive {
        server.SessionClosed(k);
      }
    }

    /** `CSession::stop`: only the first time does it ask the session's channels that still exist to stop, forget
        them all, and close the session. */
    method Stop(ss: CSession, live: set<nat>, serverAlive: bool, ghost k: nat, ghost s: R.State)
      returns (asked: set<nat>)
      requires In(s) && k in s.sessions && s.sessions[k].pc == R.Idle && ss.Is(s.sessions[k])
      requires ss.started && serverAlive ==> k in server.open
      modifies this, guidSet, ssDb`opStack, ssDb`log, server, ss`started, ss`timing, ss`srcChannels, ss`dstChannels
      ensures var t := Drain(R.StopStep(s, k), k, None); In(t) && ss.Is(t.sessions[k])
      ensures server.Now()
           == if old(ss.started) && serverAlive then A.Step(old(server.Now()), server.maxSessions, A.Close(k))
              else old(server.Now())
      ensures !ss.started && !ss.timing
      ensures if old(ss.started) then
                asked == old(ss.srcChannels + ss.dstChannels) * live && ss.srcChannels == ss.dstChannels == {}
              else asked == {} && ss.srcChannels == old(ss.srcChannels) && ss.dstChannels == old(ss.dstChannels)
    {
      hide R.ProceedStep, A.Step, Drain;
      ss.timing := false;
      StopLeaves(s, k);
      if ss.started {
        ss.started := false;
        asked := (ss.srcChannels + ss.dstChannels) * live;
        ss.srcChannels, ss.dstChannels := {}, {};
        CloseSession(ss, serverAlive, k, s);
      } else {
        asked := {};
        DrainIdle(R.StopStep(s, k), k, None);
      }
    }
  }
}
