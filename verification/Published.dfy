/** Handlers, worker and publications together: what a client reads is how things were at one moment of the run. */
module Published {
  import opened Bytes
  import opened Numbers
  import opened SessionDb
  import opened Registry
  import opened D = Directory

  /** A step of some session's handler, the worker taking a request, or the worker publishing. */
  datatype Move = Handle(e: Event) | Operate | Publish

  function Events(moves: seq<Move>): seq<Event> {
    if moves == [] then []
    else
      var m := moves[|moves| - 1];
      Events(moves[..|moves| - 1]) + if m.Handle? then [m.e] else []
  }

  /** The sessions after the run. */
  function Sessions(moves: seq<Move>): State {
    After(Events(moves))
  }

  /** What a handler's step asks of the directory. */
  function Requests(s: State, e: Event): seq<Activity> {
    var log := Step(s, e).log;
    if |log| > |s.log| then [Requested(log[|log| - 1])] else []
  }

  /** The same run as the directory sees it. */
  function Activities(moves: seq<Move>): seq<Activity> {
    if moves == [] then []
    else
      var before := moves[..|moves| - 1];
      Activities(before)
      + match moves[|moves| - 1]
        case Handle(e) => Requests(Sessions(before), e)
        case Operate => [Operated]
        case Publish => [Serialised]
  }

  lemma StepGrowsLog(s: State, e: Event)
    ensures s.log <= Step(s, e).log && |Step(s, e).log| <= |s.log| + 1 && s.tickets <= Step(s, e).tickets
  {
  }

  lemma RequestsExtendLog(run: seq<Activity>, s: State, e: Event)
    requires Progressed(run).log == s.log
    ensures Progressed(run + Requests(s, e)).log == Step(s, e).log
  {
    StepGrowsLog(s, e);
    var log := Step(s, e).log;
    hide Step;
    if |log| > |s.log| {
      assert (run + Requests(s, e))[..|run|] == run;
      assert log == s.log + [log[|log| - 1]];
    } else {
      assert run + [] == run && log == s.log;
    }
  }

  lemma {:induction false} LogsAgree(moves: seq<Move>)
    ensures Progressed(Activities(moves)).log == Sessions(moves).log
    decreases |moves|
  {
    if moves != [] {
      var before, m := moves[..|moves| - 1], moves[|moves| - 1];
      LogsAgree(before);
      var run, events := Activities(before), Events(before);
      assert events + [] == events;
      match m {
        case Handle(e) =>
          RequestsExtendLog(run, Sessions(before), e);
          Registry.AfterSnoc(events, e);
        case Operate => assert (run + [Operated])[..|run|] == run;
        case Publish => assert (run + [Serialised])[..|run|] == run;
      }
    }
  }

  lemma LastMove(moves: seq<Move>)
    requires moves != []
    ensures var s, t := Sessions(moves[..|moves| - 1]), Sessions(moves);
      s.log <= t.log && |t.log| <= |s.log| + 1 && s.tickets <= t.tickets
  {
    var before, m := moves[..|moves| - 1], moves[|moves| - 1];
    if m.Handle? {
      Registry.AfterSnoc(Events(before), m.e);
      StepGrowsLog(Sessions(before), m.e);
    } else {
      assert Events(before) + [] == Events(before);
    }
  }

  /** Every prefix of the log was the whole log at some moment of the run. */
  lemma {:induction false} PrefixMoment(moves: seq<Move>, n: nat) returns (i: nat)
    requires n <= |Sessions(moves).log|
    ensures i <= |moves| && Sessions(moves[..i]).log == Sessions(moves).log[..n]
    ensures Sessions(moves[..i]).tickets <= Sessions(moves).tickets
    decreases |moves|
  {
    hide Sessions;
    if n == |Sessions(moves).log| {
      i := |moves|;
      assert moves[..i] == moves;
    } else {
      if moves == [] {
        NothingLogged();
      }
      var before := moves[..|moves| - 1];
      LastMove(moves);
      i := PrefixMoment(before, n);
      assert before[..i] == moves[..i];
    }
  }

  lemma NothingLogged()
    ensures Sessions([]).log == []
  {
  }

  // ----- Snapshots and sessions -----

  function Ids(rs: seq<Record>): set<uint32> {
    if rs == [] then {} else Ids(rs[..|rs| - 1]) + {rs[|rs| - 1].id}
  }

  lemma {:induction false} IdOccurs(rs: seq<Record>, id: uint32)
    ensures id in Ids(rs) <==> exists i :: 0 <= i < |rs| && rs[i].id == id
  {
    if rs != [] {
      var init := rs[..|rs| - 1];
      IdOccurs(init, id);
      assert forall i :: 0 <= i < |init| ==> init[i] == rs[i];
    }
  }

  lemma {:induction false} DistinctIds(rs: seq<Record>)
    requires forall i, j :: 0 <= i < j < |rs| ==> rs[i].id != rs[j].id
    ensures |Ids(rs)| == |rs|
  {
    if rs != [] {
      DistinctIds(rs[..|rs| - 1]);
      IdOccurs(rs[..|rs| - 1], rs[|rs| - 1].id);
    }
  }

  /** A listing leaves no entry out. */
  lemma ListsAll(rs: seq<Record>, db: Directory, id: uint32)
    requires Lists(rs, db) && id in db
    ensures exists i :: 0 <= i < |rs| && rs[i].id == id
  {
    DistinctIds(rs);
    forall x | x in Ids(rs)
      ensures x in db.Keys
    {
      IdOccurs(rs, x);
    }
    IdOccurs(rs, id);
    if id !in Ids(rs) {
      SmallerThan(Ids(rs), db.Keys, id);
    }
  }

  lemma SmallerThan(a: set<uint32>, b: set<uint32>, x: uint32)
    requires a <= b && x in b && x !in a
    ensures |a| < |b|
  {
    assert |b - a| > 0;
    assert a + (b - a) == b;
  }

  /** `rs` shows exactly the sessions that are in the directory, each once, with its id and address. */
  ghost predicate Shows(rs: seq<Record>, s: State) {
    && (forall i, j :: 0 <= i < j < |rs| ==> rs[i].id != rs[j].id)
    && (forall i :: 0 <= i < |rs| ==> ShownBy(rs[i], s))
    && (forall k :: k in s.sessions && s.sessions[k].InDb() ==> RecordOf(s.sessions[k]) in rs)
  }

  function RecordOf(ss: Session): Record {
    Record(IdOf(ss.ticket), ss.addr)
  }

  ghost predicate ShownBy(r: Record, s: State) {
    exists k :: k in s.sessions && s.sessions[k].InDb() && r == RecordOf(s.sessions[k])
  }

  lemma ListingShows(rs: seq<Record>, s: State)
    requires DbInv(s) && Lists(rs, Apply(s.log))
    ensures Shows(rs, s)
  {
    hide Apply;
    forall i | 0 <= i < |rs|
      ensures ShownBy(rs[i], s)
    {
      var k := s.ids[rs[i].id];
      assert Registered(s, rs[i].id) && s.sessions[k].InDb();
      assert rs[i] == RecordOf(s.sessions[k]);
    }
    forall k | k in s.sessions && s.sessions[k].InDb()
      ensures RecordOf(s.sessions[k]) in rs
    {
      var id := IdOf(s.sessions[k].ticket);
      ListsAll(rs, Apply(s.log), id);
      var i :| 0 <= i < |rs| && rs[i].id == id;
      assert rs[i] == RecordOf(s.sessions[k]);
    }
  }

  /** In every interleaving of handlers, worker and publications in which no publication left the buffer, whatever
      snapshot a client has read shows exactly the sessions that were in the directory at one moment of the run. */
  lemma PublishedIsAMoment(moves: seq<Move>, out: seq<byte>) returns (i: nat, rs: seq<Record>)
    requires Fits(Sessions(moves)) && AllReadable(Activities(moves))
    requires var p := Progressed(Activities(moves)); p.published.Some? && IsSnapshot(out, p.log, p.published)
    ensures i <= |moves| && ReadSnapshot(out) == Some(rs) && Shows(rs, Sessions(moves[..i]))
  {
    hide Progressed, AllReadable, Lists, Shows, Inv, ReadSnapshot;
    var p := Progressed(Activities(moves));
    LogsAgree(moves);
    i := PrefixMoment(moves, p.published.value);
    rs :| Lists(rs, Apply(p.log[..p.published.value])) && ReadSnapshot(out) == Some(rs);
    RunsKeepInv(Events(moves[..i]));
    InvHasDb(Sessions(moves[..i]));
    ListingShows(rs, Sessions(moves[..i]));
  }

  lemma InvHasDb(s: State)
    requires Inv(s)
    ensures DbInv(s)
  {
  }
}
