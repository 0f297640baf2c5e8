/** Connection admission: several acceptors check a shared counter and increment it later. */
module Admission {
  import opened Numbers

  /** `passed` holds the acceptors between their check and their increment, `open` the sessions counted in and
      not yet closed. */
  datatype State = State(connNum: int, passed: set<nat>, open: set<nat>, next: nat)

  const EMPTY := State(0, {}, {}, 0)

  datatype Event = Check(acceptor: nat) | CountIn(acceptor: nat) | Close(session: nat)

  /** With `limit` 0 everybody is let in.  The counter is a 32-bit one. */
  function Step(s: State, limit: nat, e: Event): State {
    match e
    case Check(a) =>
      if a in s.passed || (limit > 0 && s.connNum > limit) then s else s.(passed := s.passed + {a})
    case CountIn(a) =>
      if a !in s.passed then s
      else State((s.connNum + 1) % UINT32, s.passed - {a}, s.open + {s.next}, s.next + 1)
    case Close(k) =>
      if k !in s.open then s else s.(connNum := (s.connNum - 1) % UINT32, open := s.open - {k})
  }

  function After(limit: nat, events: seq<Event>): State {
    if events == [] then EMPTY else Step(After(limit, events[..|events| - 1]), limit, events[|events| - 1])
  }

  ghost predicate Acceptors(events: seq<Event>, n: nat) {
    forall k :: 0 <= k < |events| && events[k].Check? ==> events[k].acceptor < n
  }

  ghost predicate Inv(s: State, limit: nat, n: nat) {
    && s.connNum == |s.open|
    && s.connNum + |s.passed| <= limit + n
    && (forall a :: a in s.passed ==> a < n)
    && (forall k :: k in s.open ==> k < s.next)
  }

  lemma {:induction false} SubsetOfRange(s: set<nat>, n: nat)
    requires forall a :: a in s ==> a < n
    ensures |s| <= n
  {
    if n == 0 {
      assert s == {};
    } else {
      SubsetOfRange(s - {n - 1}, n - 1);
      assert |s| <= |s - {n - 1}| + 1;
    }
  }

  lemma StepKeepsInv(s: State, limit: nat, n: nat, e: Event)
    requires Inv(s, limit, n) && limit > 0 && limit + n < UINT32
    requires e.Check? ==> e.acceptor < n
    ensures Inv(Step(s, limit, e), limit, n)
  {
    match e {
      case Check(a) => CheckKeepsInv(s, limit, n, a);
      case CountIn(a) => CountInKeepsInv(s, limit, n, a);
      case Close(k) => CloseKeepsInv(s, limit, n, k);
    }
  }

  lemma CheckKeepsInv(s: State, limit: nat, n: nat, a: nat)
    requires Inv(s, limit, n) && limit > 0 && a < n
    ensures Inv(Step(s, limit, Check(a)), limit, n)
  {
    SubsetOfRange(s.passed + {a}, n);
  }

  lemma CountInKeepsInv(s: State, limit: nat, n: nat, a: nat)
    requires Inv(s, limit, n) && limit + n < UINT32
    ensures Inv(Step(s, limit, CountIn(a)), limit, n)
  {
    if a in s.passed {
      assert |s.passed - {a}| == |s.passed| - 1;
      assert s.next !in s.open && |s.open + {s.next}| == |s.open| + 1;
      assert 0 <= s.connNum + 1 < UINT32;
    }
  }

  lemma CloseKeepsInv(s: State, limit: nat, n: nat, k: nat)
    requires Inv(s, limit, n) && limit + n < UINT32
    ensures Inv(Step(s, limit, Close(k)), limit, n)
  {
    if k in s.open {
      assert |s.open - {k}| == |s.open| - 1;
      assert 0 <= s.connNum - 1 < UINT32;
    }
  }

  ghost predicate CountInv(s: State) {
    s.connNum == |s.open| % UINT32 && forall k :: k in s.open ==> k < s.next
  }

  lemma StepKeepsCount(s: State, limit: nat, e: Event)
    requires CountInv(s)
    ensures CountInv(Step(s, limit, e))
  {
    match e {
      case Check(_) =>
      case CountIn(a) =>
        if a in s.passed {
          assert s.next !in s.open && |s.open + {s.next}| == |s.open| + 1;
          WrapsAlong(|s.open|, 1);
        }
      case Close(k) =>
        if k in s.open {
          assert |s.open - {k}| == |s.open| - 1;
          WrapsAlong(|s.open|, -1);
        }
    }
  }

  lemma WrapsAlong(a: int, d: int)
    ensures (a % UINT32 + d) % UINT32 == (a + d) % UINT32
  {
  }

  /** Whatever the limit, none included, and however many acceptors there are: the 32-bit counter is the number of
      sessions counted in and not closed. */
  lemma {:induction false} CounterExact(limit: nat, events: seq<Event>)
    ensures CountInv(After(limit, events))
    decreases |events|
  {
    if events != [] {
      CounterExact(limit, events[..|events| - 1]);
      StepKeepsCount(After(limit, events[..|events| - 1]), limit, events[|events| - 1]);
    }
  }

  lemma {:induction false} PositiveLimitBounds(limit: nat, n: nat, events: seq<Event>)
    requires 0 < limit && limit + n < UINT32 && Acceptors(events, n)
    ensures Inv(After(limit, events), limit, n)
    decreases |events|
  {
    if events != [] {
      var before := events[..|events| - 1];
      PositiveLimitBounds(limit, n, before);
      StepKeepsInv(After(limit, before), limit, n, events[|events| - 1]);
    }
  }

  /** However checks, increments and closes of `n` acceptors interleave: the counter is exact for every limit, and
      for a positive one (that a 32-bit counter can tell) it never underflows and, together with the acceptors
      past their check, never exceeds `limit + n`. */
  lemma AdmissionBound(limit: nat, n: nat, events: seq<Event>)
    requires Acceptors(events, n)
    ensures var s := After(limit, events);
      && s.connNum == |s.open| % 4294967296
      && (0 < limit && limit + n < 4294967296 ==> s.connNum == |s.open| && s.connNum + |s.passed| <= limit + n)
  {
    CounterExact(limit, events);
    if 0 < limit && limit + n < UINT32 {
      PositiveLimitBounds(limit, n, events);
    }
  }

  /** Acceptor 0 lets in `k` connections one after the other. */
  function Serial(k: nat): seq<Event> {
    if k == 0 then [] else Serial(k - 1) + [Check(0)] + [CountIn(0)]
  }

  lemma AfterSnoc(limit: nat, events: seq<Event>, e: Event)
    ensures After(limit, events + [e]) == Step(After(limit, events), limit, e)
  {
    assert (events + [e])[..|events|] == events;
  }

  lemma OneMore(limit: nat, s: State)
    requires s.passed == {} && 0 <= s.connNum <= limit && s.connNum + 1 < UINT32
    ensures var t := Step(Step(s, limit, Check(0)), limit, CountIn(0)); t.connNum == s.connNum + 1 && t.passed == {}
  {
    assert s.passed + {0} - {0} == {};
  }

  lemma {:induction false} SerialFills(limit: nat, k: nat)
    requires k <= limit + 1 < UINT32
    ensures var s := After(limit, Serial(k)); s.connNum == k && s.passed == {}
  {
    if k == 0 {
      assert Serial(0) == [];
    } else {
      hide After, Step;
      SerialFills(limit, k - 1);
      AfterSnoc(limit, Serial(k - 1), Check(0));
      AfterSnoc(limit, Serial(k - 1) + [Check(0)], CountIn(0));
      OneMore(limit, After(limit, Serial(k - 1)));
    }
  }

  /** `n` acceptors all check before any of them counts. */
  function Checks(n: nat): seq<Event> {
    if n == 0 then [] else Checks(n - 1) + [Check(n - 1)]
  }

  function Counts(n: nat): seq<Event> {
    if n == 0 then [] else Counts(n - 1) + [CountIn(n - 1)]
  }

  function Below(n: nat): (s: set<nat>)
    ensures forall a: nat :: a in s <==> a < n
  {
    if n == 0 then {} else Below(n - 1) + {n - 1}
  }

  lemma {:induction false} ChecksPass(limit: nat, n: nat)
    requires 0 < limit && limit + n < UINT32 && limit + 1 < UINT32
    ensures var s := After(limit, Serial(limit) + Checks(n)); s.connNum == limit && s.passed == Below(n)
  {
    hide After, Serial;
    SerialFills(limit, limit);
    if n == 0 {
      assert Serial(limit) + Checks(0) == Serial(limit);
    } else {
      ChecksPass(limit, n - 1);
      AfterSnoc(limit, Serial(limit) + Checks(n - 1), Check(n - 1));
      assert Serial(limit) + Checks(n) == Serial(limit) + Checks(n - 1) + [Check(n - 1)];
    }
  }

  lemma {:induction false} CountsExceed(limit: nat, n: nat, m: nat)
    requires 0 < limit && 0 < n && limit + n < UINT32 && m <= n
    ensures var s := After(limit, Serial(limit) + Checks(n) + Counts(m));
            s.connNum == limit + m && s.passed == Below(n) - Below(m)
  {
    hide After, Serial, Checks;
    var start := Serial(limit) + Checks(n);
    if m == 0 {
      ChecksPass(limit, n);
      assert start + Counts(0) == start;
      assert Below(n) - Below(0) == Below(n);
    } else {
      CountsExceed(limit, n, m - 1);
      AfterSnoc(limit, start + Counts(m - 1), CountIn(m - 1));
      assert start + Counts(m) == start + Counts(m - 1) + [CountIn(m - 1)];
      assert Below(n) - Below(m - 1) - {m - 1} == Below(n) - Below(m);
    }
  }

  /** The bound is tight: `n` racing acceptors do reach `limit + n`, so the configured limit itself is exceeded
      as soon as there is one acceptor. */
  lemma BoundIsReached(limit: nat, n: nat) returns (events: seq<Event>)
    requires 0 < limit && 0 < n && limit + n < UINT32
    ensures Acceptors(events, n) && After(limit, events).connNum == limit + n
  {
    events := Serial(limit) + Checks(n) + Counts(n);
    CountsExceed(limit, n, n);
    SerialActors(limit);
    ChecksActors(n);
    CountsActors(n);
  }

  lemma {:induction false} SerialActors(k: nat)
    ensures Acceptors(Serial(k), 1)
  {
    if k > 0 {
      SerialActors(k - 1);
    }
  }

  lemma {:induction false} ChecksActors(n: nat)
    ensures Acceptors(Checks(n), n)
  {
    if n > 0 {
      ChecksActors(n - 1);
    }
  }

  lemma {:induction false} CountsActors(m: nat)
    ensures Acceptors(Counts(m), 0)
  {
    if m > 0 {
      CountsActors(m - 1);
    }
  }

  // ----- Who is let in -----

  /** With limit 0 an idle acceptor's check always passes; with a positive limit it passes exactly while at most
      `limit` sessions are counted in and not closed. */
  lemma CheckPasses(limit: nat, n: nat, events: seq<Event>, acceptor: nat)
    requires acceptor !in After(limit, events).passed
    requires limit > 0 ==> Acceptors(events, n) && limit + n < 4294967296
    ensures acceptor in After(limit, events + [Check(acceptor)]).passed
       <==> limit == 0 || |After(limit, events).open| <= limit
  {
    AfterSnoc(limit, events, Check(acceptor));
    if limit > 0 {
      AdmissionBound(limit, n, events);
    }
  }

  /** An acceptor past its check counts exactly one more session in; closing takes exactly that session off. */
  lemma CountsAndCloses(limit: nat, events: seq<Event>, acceptor: nat, session: nat)
    ensures var s, t := After(limit, events), After(limit, events + [CountIn(acceptor)]);
      if acceptor in s.passed then |t.open| == |s.open| + 1 && s.open < t.open && t.passed == s.passed - {acceptor}
      else t == s
    ensures var s, t := After(limit, events), After(limit, events + [Close(session)]);
      t.open == s.open - {session} && t.passed == s.passed
  {
    AfterSnoc(limit, events, CountIn(acceptor));
    AfterSnoc(limit, events, Close(session));
    CounterExact(limit, events);
    var s := After(limit, events);
    assert s.next !in s.open;
    assert |s.open + {s.next}| == |s.open| + 1;
  }

  /** With limit 0 any number of sessions is reached. */
  lemma {:induction false} NoLimit(n: nat)
    ensures |After(0, Serial(n)).open| == n && After(0, Serial(n)).passed == {}
  {
    if n > 0 {
      hide After;
      NoLimit(n - 1);
      CheckPasses(0, 0, Serial(n - 1), 0);
      NobodyElse(0, Serial(n - 1));
      CountsAndCloses(0, Serial(n - 1) + [Check(0)], 0, 0);
    } else {
      assert Serial(0) == [];
    }
  }

  /** A check lets nobody in but its own acceptor. */
  lemma NobodyElse(limit: nat, events: seq<Event>)
    ensures After(limit, events + [Check(0)]).passed <= After(limit, events).passed + {0}
    ensures After(limit, events + [Check(0)]).open == After(limit, events).open
  {
    AfterSnoc(limit, events, Check(0));
  }

  class CServer {
    var connNum: int
    const maxSessions: nat
    ghost var passed: set<nat>
    ghost var open: set<nat>
    ghost var next: nat

    ghost function Now(): State
      reads this
    {
      State(connNum, passed, open, next)
    }

    constructor (maxSessions: nat)
      ensures Now() == EMPTY && this.maxSessions == maxSessions
    {
      this.maxSessions := maxSessions;
      connNum, passed, open, next := 0, {}, {}, 0;
    }

    /** The acceptor's check; other acceptors may run before it counts the connection in. */
    method Admit(ghost acceptor: nat) returns (ok: bool)
      requires acceptor !in passed
      modifies this`passed
      ensures Now() == Step(old(Now()), maxSessions, Check(acceptor)) && (ok <==> acceptor in passed)
    {
      if maxSessions > 0 && connNum > maxSessions {
        return false;
      }
      passed := passed + {acceptor};
      return true;
    }

    method Register(ghost acceptor: nat)
      requires acceptor in passed
      modifies this
      ensures Now() == Step(old(Now()), maxSessions, CountIn(acceptor))
    {
      connNum := (connNum + 1) % UINT32;
      passed, open, next := passed - {acceptor}, open + {next}, next + 1;
    }

    method SessionClosed(ghost session: nat)
      requires session in open
      modifies this
      ensures Now() == Step(old(Now()), maxSessions, Close(session))
    {
      connNum := (connNum - 1) % UINT32;
      open := open - {session};
    }
  }
}
