/** Ids beyond the wrap-around of the 32-bit counter. */
module IdReuse {
  import opened Numbers
  import opened SessionDb
  import opened Registry

  // ----- When listed sessions keep their ids to themselves -----

  /** Every session that is in the id map is there under its own id. */
  ghost predicate EntriesHeld(s: State) {
    forall k :: k in s.sessions && s.sessions[k].InMap() ==> Holds(s, k)
  }

  ghost predicate Holds(s: State, k: nat)
    requires k in s.sessions
  {
    var id := IdOf(s.sessions[k].ticket); id in s.ids && s.ids[id] == k
  }

  /** A closing session erases an id under which another session is in the map.  Sessions that were never listed
      erase their ids, too. */
  ghost predicate Steals(s: State, e: Event) {
    && e.Proceed? && e.k in s.sessions && s.sessions[e.k].pc == ClosingMap
    && exists j :: Shares(s, j, e.k)
  }

  ghost predicate Shares(s: State, j: nat, k: nat)
    requires k in s.sessions
  {
    j in s.sessions && j != k && s.sessions[j].InMap() && IdOf(s.sessions[j].ticket) == IdOf(s.sessions[k].ticket)
  }

  lemma EraseKeepsEntries(s: State, e: Event)
    requires EntriesHeld(s) && e.Proceed? && e.k in s.sessions && s.sessions[e.k].pc == ClosingMap
    ensures EntriesHeld(Step(s, e)) <==> !Steals(s, e)
  {
    var t := Step(s, e);
    if Steals(s, e) {
      var j :| Shares(s, j, e.k);
      assert t.sessions[j].InMap() && !Holds(t, j);
    } else {
      forall j | j in t.sessions && t.sessions[j].InMap()
        ensures Holds(t, j)
      {
        assert Holds(s, j) && !Shares(s, j, e.k);
      }
    }
  }

  lemma EnterKeepsEntries(s: State, e: Event)
    requires EntriesHeld(s) && e.Proceed? && e.k in s.sessions && s.sessions[e.k].pc == GotId
    ensures EntriesHeld(Step(s, e))
  {
    forall j | j in Step(s, e).sessions && Step(s, e).sessions[j].InMap()
      ensures Holds(Step(s, e), j)
    {
      assert j != e.k ==> Holds(s, j);
    }
  }

  lemma StayKeepsEntries(s: State, t: State, k: nat, ss: Session)
    requires EntriesHeld(s) && t.sessions == s.sessions[k := ss] && t.ids == s.ids
    requires ss.InMap() ==> k in s.sessions && s.sessions[k].InMap() && ss.ticket == s.sessions[k].ticket
    ensures EntriesHeld(t)
  {
    forall j | j in t.sessions && t.sessions[j].InMap()
      ensures Holds(t, j)
    {
      assert Holds(s, j);
    }
  }

  lemma StepKeepsEntries(s: State, e: Event)
    requires GuidInv(s) && EntriesHeld(s)
    ensures EntriesHeld(Step(s, e)) <==> !Steals(s, e)
  {
    var t := Step(s, e);
    if e.k in s.sessions && e.Proceed? && s.sessions[e.k].pc == ClosingMap {
      EraseKeepsEntries(s, e);
    } else if e.k in s.sessions && e.Proceed? && s.sessions[e.k].pc == GotId {
      EnterKeepsEntries(s, e);
    } else if t != s {
      if e.k in s.sessions {
        PhaseOf(s, e.k);
      }
      hide EntriesHeld, GuidInv;
      StayKeepsEntries(s, t, e.k, t.sessions[e.k]);
    }
  }

  ghost predicate StolenAt(events: seq<Event>, i: nat)
    requires i < |events|
  {
    Steals(After(events[..i]), events[i])
  }

  ghost predicate HeldAt(events: seq<Event>, n: nat)
    requires n <= |events|
  {
    EntriesHeld(After(events[..n]))
  }

  ghost predicate NeverStolen(events: seq<Event>) {
    forall i :: 0 <= i < |events| ==> !StolenAt(events, i)
  }

  ghost predicate AlwaysHeld(events: seq<Event>) {
    forall n :: 0 <= n <= |events| ==> HeldAt(events, n)
  }

  lemma {:induction false} HeldUpTo(events: seq<Event>, n: nat)
    requires n <= |events| && forall i :: 0 <= i < n ==> !StolenAt(events, i)
    ensures HeldAt(events, n)
    decreases n
  {
    hide Steals, EntriesHeld, GuidInv;
    if n == 0 {
      NothingHeld(events);
    } else {
      HeldUpTo(events, n - 1);
      NextMoment(events, n - 1);
    }
  }

  lemma NothingHeld(events: seq<Event>)
    ensures HeldAt(events, 0)
  {
  }

  lemma NextMoment(events: seq<Event>, n: nat)
    requires n < |events| && HeldAt(events, n)
    ensures HeldAt(events, n + 1) <==> !StolenAt(events, n)
  {
    hide Steals, EntriesHeld, GuidInv, Step;
    RunsKeepGuids(events[..n]);
    Registry.AfterSnoc(events[..n], events[n]);
    assert events[..n] + [events[n]] == events[..n + 1];
    StepKeepsEntries(After(events[..n]), events[n]);
  }

  /** Without any bound on the number of ids: throughout a run every session in the id map is there under its own
      id, if and only if no closing session ever erased an id that another was using. */
  lemma EntriesHeldIffNeverStolen(events: seq<Event>)
    ensures AlwaysHeld(events) <==> NeverStolen(events)
  {
    hide StolenAt, HeldAt;
    if NeverStolen(events) {
      forall n | 0 <= n <= |events|
        ensures HeldAt(events, n)
      {
        HeldUpTo(events, n);
      }
    }
    if AlwaysHeld(events) {
      forall i | 0 <= i < |events|
        ensures !StolenAt(events, i)
      {
        assert HeldAt(events, i) && HeldAt(events, i + 1);
        NextMoment(events, i);
      }
    }
  }

  /** In such a run sessions in the map have pairwise different ids, however many ids have been handed out. */
  lemma ListedIdsAreDistinct(events: seq<Event>, j: nat, k: nat)
    requires NeverStolen(events)
    requires var s := After(events);
      j in s.sessions && k in s.sessions && j != k && s.sessions[j].InMap() && s.sessions[k].InMap()
    ensures var s := After(events); IdOf(s.sessions[j].ticket) != IdOf(s.sessions[k].ticket)
  {
    EntriesHeldIffNeverStolen(events);
    assert HeldAt(events, |events|) && events[..|events|] == events;
    var s := After(events);
    assert Holds(s, j) && Holds(s, k);
  }

  // ----- A run in which ids repeat -----

  /** Server session 0 is logged in and listed; everybody else has come and gone. */
  ghost predicate Alone(s: State, n: nat, g: string) {
    && n > 0 && s.tickets == n && (forall k :: k in s.sessions ==> k < n)
    && 0 in s.sessions && s.sessions[0] == Session(Idle, true, true, g, SERVER, 0, 0)
    && s.ids == map[FIRST_ID := 0] && s.guids == map[g := 0]
  }

  lemma FirstComes(g: string) returns (run: seq<Event>)
    ensures Alone(After(run), 1, g)
  {
    var e1 := [] + [Accept(0)];
    Registry.AfterSnoc([], Accept(0));
    assert After(e1) == Put(EMPTY, 0, Session(Idle, true, false, "", 0, 0, 0));
    var e2 := e1 + [Login(0, g, SERVER)];
    Registry.AfterSnoc(e1, Login(0, g, SERVER));
    assert After(e2) == Put(EMPTY, 0, Session(GotGuid, true, false, g, SERVER, 0, 0)).(guids := map[g := 0]);
    var e3 := e2 + [Proceed(0, Some(0))];
    Registry.AfterSnoc(e2, Proceed(0, Some(0)));
    var e4 := e3 + [Proceed(0, Some(0))];
    Registry.AfterSnoc(e3, Proceed(0, Some(0)));
    assert After(e4).sessions == map[0 := Session(Mapped, true, false, g, SERVER, 0, 0)];
    Registry.AfterSnoc(e4, Proceed(0, Some(0)));
    run := e4 + [Proceed(0, Some(0))];
  }

  /** Client session `n` joins server session 0. */
  ghost predicate Joined(s: State, n: nat, g: string, h: string) {
    && n > 0 && s.tickets == n + 1 && (forall k :: k in s.sessions ==> k <= n)
    && 0 in s.sessions && s.sessions[0] == Session(Idle, true, true, g, SERVER, 0, 0)
    && n in s.sessions && s.sessions[n] == Session(Idle, true, true, h, 1, n, 0)
    && s.ids == map[FIRST_ID := 0] && s.guids == map[g := 0, h := n]
  }

  lemma ClientComes(run: seq<Event>, n: nat, g: string, h: string) returns (more: seq<Event>)
    requires Alone(After(run), n, g) && g != h
    ensures Joined(After(more), n, g, h)
  {
    var s := After(run);
    var e1 := run + [Accept(n)];
    Registry.AfterSnoc(run, Accept(n));
    var ss := Session(Idle, true, false, "", 0, 0, 0);
    assert After(e1) == Put(s, n, ss);
    var e2 := e1 + [Login(n, h, 1)];
    Registry.AfterSnoc(e1, Login(n, h, 1));
    assert After(e2) == Put(After(e1), n, ss.(guid := h, kind := 1, pc := GotGuid)).(guids := s.guids[h := n]);
    Registry.AfterSnoc(e2, Proceed(n, None));
    more := e2 + [Proceed(n, None)];
  }

  /** The client is stopped and its handler runs to its end; its id leaves the map, whoever is using it. */
  lemma ClientGoes(run: seq<Event>, n: nat, g: string, h: string) returns (more: seq<Event>)
    requires Joined(After(run), n, g, h) && g != h
    ensures var s := After(more);
      && s.tickets == n + 1 && (forall k :: k in s.sessions ==> k <= n)
      && 0 in s.sessions && s.sessions[0] == Session(Idle, true, true, g, SERVER, 0, 0)
      && s.ids == map[FIRST_ID := 0] - {IdOf(n)} && s.guids == map[g := 0]
  {
    var ss := After(run).sessions[n];
    var e1 := run + [Stop(n)];
    Registry.AfterSnoc(run, Stop(n));
    assert After(e1) == Put(After(run), n, ss.(running := false, pc := ClosingGuid));
    var e2 := e1 + [Proceed(n, None)];
    Registry.AfterSnoc(e1, Proceed(n, None));
    assert After(e2).guids == map[g := 0] && After(e2).sessions[n] == ss.(running := false, pc := ClosingDb);
    var e3 := e2 + [Proceed(n, None)];
    Registry.AfterSnoc(e2, Proceed(n, None));
    assert After(e3).guids == map[g := 0] && After(e3).sessions[n] == ss.(running := false, pc := ClosingMap);
    Registry.AfterSnoc(e3, Proceed(n, None));
    more := e3 + [Proceed(n, None)];
  }

  /** Clients come and go, and each takes an id with it. */
  lemma {:induction false} ClientsComeAndGo(n: nat, g: string, h: string) returns (run: seq<Event>)
    requires 0 < n <= UINT32 && g != h
    ensures Alone(After(run), n, g)
    decreases n
  {
    if n == 1 {
      run := FirstComes(g);
    } else {
      run := ClientsComeAndGo(n - 1, g, h);
      run := ClientComes(run, n - 1, g, h);
      run := ClientGoes(run, n - 1, g, h);
      assert IdOf(n - 1) != FIRST_ID;
      assert map[FIRST_ID := 0] - {IdOf(n - 1)} == map[FIRST_ID := 0];
    }
  }

  /** Two active sessions have the same id. */
  ghost predicate IdTwice(s: State, j: nat, k: nat) {
    && j in s.sessions && k in s.sessions && j != k && s.sessions[j].Active() && s.sessions[k].Active()
    && IdOf(s.sessions[j].ticket) == IdOf(s.sessions[k].ticket)
  }

  /** An active server is missing from the map. */
  ghost predicate Robbed(s: State, k: nat) {
    k in s.sessions && s.sessions[k].Active() && s.sessions[k].InDb() && IdOf(s.sessions[k].ticket) !in s.ids
  }

  /** After 2^32 allocations the next client is given the id that the first server still uses. */
  lemma IdsRepeat(g: string, h: string) returns (run: seq<Event>)
    requires g != h
    ensures IdTwice(After(run), 0, UINT32) && Joined(After(run), UINT32, g, h)
  {
    hide After;
    run := ClientsComeAndGo(UINT32, g, h);
    run := ClientComes(run, UINT32, g, h);
    assert IdOf(UINT32) == FIRST_ID;
  }

  /** When that client goes, it takes the server's entry in the map with it. */
  lemma ServerIsRobbed(g: string, h: string) returns (run: seq<Event>)
    requires g != h
    ensures Robbed(After(run), 0)
  {
    hide After;
    run := IdsRepeat(g, h);
    run := ClientGoes(run, UINT32, g, h);
    assert IdOf(UINT32) == FIRST_ID;
  }
}
