/** The session's reader over whole runs: it goes on reading until it has to stop, and when that is. */
module SessionRuns {
  import opened Bytes
  import opened Frames
  import opened Session

  lemma StepKeepsReading(s: State, e: Event)
    requires s.started ==> s.awaiting != Nothing
    ensures Step(s, e).started ==> Step(s, e).awaiting != Nothing
  {
  }

  /** As long as a session is started, a read is outstanding. */
  lemma {:induction false} NeverStopsReading(events: seq<Event>)
    ensures After(events).started ==> After(events).awaiting != Nothing
    decreases |events|
  {
    hide Step;
    if events != [] {
      NeverStopsReading(events[..|events| - 1]);
      StepKeepsReading(After(events[..|events| - 1]), events[|events| - 1]);
    }
  }

  /** A failed read ends the session and so does a stop request; what has ended never starts again. */
  lemma FailureStops(events: seq<Event>, e: Event)
    requires e.Stop? || (e.ReadDone? && !e.ok && Enabled(After(events), e))
    ensures !After(events + [e]).started
  {
    AfterSnoc(events, e);
  }

  lemma {:induction false} OnceStopped(events: seq<Event>, more: seq<Event>)
    requires !After(events).started
    ensures !After(events + more).started
    decreases |more|
  {
    var n := |more|;
    if n == 0 {
      assert events + more == events;
    } else {
      OnceStopped(events, more[..n - 1]);
      AfterSnoc(events + more[..n - 1], more[n - 1]);
      assert events + more == events + more[..n - 1] + [more[n - 1]];
    }
  }

  /** Nobody stops the session and no read fails. */
  predicate Undisturbed(e: Event) {
    !e.Stop? && (e.ReadDone? ==> e.ok)
  }

  ghost predicate AllUndisturbed(events: seq<Event>) {
    forall k :: 0 <= k < |events| ==> Undisturbed(events[k])
  }

  /** The body length a header announces. */
  function Announced(h: seq<byte>): nat
    requires |h| >= 8
  {
    (h[6] as int) + 256 * (h[7] as int)
  }

  /** The bytes behind the packets begin with a complete header that is invalid or announces an empty body. */
  predicate Broken(rest: seq<byte>) {
    |rest| >= 8 && !(rest[0] == 221 && rest[1] == 5 && (rest[3] == 2 || rest[3] == 4) && Announced(rest) > 0)
  }

  /** What has been received behind the packets dispatched. */
  ghost predicate RestInv(s: State) {
    && Join(s.dispatched) <= s.received
    && var rest := s.received[|Join(s.dispatched)|..];
      if s.started then
        if s.awaiting == Head then rest == []
        else
          && s.awaiting == Body && rest == s.hdr
          && |rest| == 8 && rest[0] == 221 && rest[1] == 5 && (rest[3] == 2 || rest[3] == 4)
      else s.awaiting == Nothing && Broken(rest)
  }

  lemma Behind(a: seq<byte>, b: seq<byte>)
    ensures (a + b)[|a|..] == b
  {
  }

  lemma HeadKeepsRest(s: State, e: Event)
    requires ReadInv(s) && RestInv(s) && Enabled(s, e) && e.ReadDone? && e.ok && s.awaiting == Head
    ensures RestInv(Step(s, e))
  {
    assert s.received + e.chunk == Join(s.dispatched) + e.chunk;
    Behind(Join(s.dispatched), e.chunk);
    assert s.rbuf + e.chunk == e.chunk && e.chunk[..8] == e.chunk;
  }

  lemma BodyKeepsRest(s: State, e: Event)
    requires ReadInv(s) && RestInv(s) && s.started && Enabled(s, e) && e.ReadDone? && e.ok && s.awaiting == Body
    ensures RestInv(Step(s, e))
  {
    var joined, p := Join(s.dispatched), s.hdr + e.chunk;
    assert s.received + e.chunk == joined + p;
    if e.chunk == [] {
      assert p == s.hdr;
      Behind(joined, s.hdr);
    } else {
      JoinSnoc(s.dispatched, p);
      assert (s.received + e.chunk)[|joined + p|..] == [];
      assert joined + p + [] == joined + p;
    }
  }

  lemma StepKeepsRest(s: State, e: Event)
    requires ReadInv(s) && RestInv(s) && Undisturbed(e)
    ensures RestInv(Step(s, e))
  {
    if Enabled(s, e) && e.ReadDone? {
      if s.awaiting == Head {
        HeadKeepsRest(s, e);
      } else {
        BodyKeepsRest(s, e);
      }
    }
  }

  lemma {:induction false} RunsKeepRest(events: seq<Event>)
    requires AllUndisturbed(events)
    ensures RestInv(After(events))
    decreases |events|
  {
    hide Step, RestInv, ReadInv;
    if events == [] {
      NothingReceived();
    } else {
      RunsKeepRest(events[..|events| - 1]);
      RunsKeepReadInv(events[..|events| - 1]);
      StepKeepsRest(After(events[..|events| - 1]), events[|events| - 1]);
    }
  }

  lemma NothingReceived()
    ensures RestInv(STARTED)
  {
  }

  /** The outstanding read cannot be completed from the bytes that are left. */
  predicate Exhausted(s: State, left: seq<byte>) {
    match s.awaiting
    case Nothing => true
    case Head => |left| < 8
    case Body => |s.hdr| == 8 && 0 < Announced(s.hdr) && |left| < Announced(s.hdr)
  }

  /** Whoever feeds every outstanding read from a byte stream, whatever is written meanwhile: once no read can be
      completed any more, the packets dispatched are exactly those at the front of the stream, and the session has
      stopped exactly if what follows them begins with an invalid header or one that announces an empty body. */
  lemma ReadsTheStream(events: seq<Event>, left: seq<byte>)
    requires AllUndisturbed(events) && Exhausted(After(events), left)
    ensures var s := After(events); var stream := s.received + left;
      && s.dispatched == Packets(stream) && Join(Packets(stream)) <= stream
      && (!s.started <==> Broken(stream[|Join(Packets(stream))|..]))
  {
    hide RestInv, ReadInv;
    RunsKeepRest(events);
    RunsKeepReadInv(events);
    StreamEnds(After(events), left);
  }

  lemma StreamEnds(s: State, left: seq<byte>)
    requires ReadInv(s) && RestInv(s) && Exhausted(s, left)
    ensures var stream := s.received + left;
      && s.dispatched == Packets(stream) && Join(s.dispatched) <= stream
      && (!s.started <==> Broken(stream[|Join(s.dispatched)|..]))
  {
    hide Packets, IsPacket;
    var joined := Join(s.dispatched);
    var rest := s.received[|joined|..];
    assert s.received + left == joined + (rest + left);
    Behind(joined, rest + left);
    TailHasNoPacket(s, rest, left);
    CutOffAddsNothing(s.dispatched, rest + left);
  }

  lemma TailHasNoPacket(s: State, rest: seq<byte>, left: seq<byte>)
    requires RestInv(s) && Exhausted(s, left) && rest == s.received[|Join(s.dispatched)|..]
    ensures var tail := rest + left;
      |tail| < HEADER_SIZE || !ValidHead(tail) || BodyLen(tail) == 0 || |tail| < HEADER_SIZE + BodyLen(tail)
    ensures Broken(rest + left) <==> !s.started
  {
    if s.started && s.awaiting == Head {
      assert rest + left == left;
    }
  }

  /** The next read completed from the stream. */
  function Serve(s: State, left: seq<byte>): Event
    requires !Exhausted(s, left) && |s.hdr| == 8
  {
    if s.awaiting == Head then ReadDone(true, left[..8])
    else
      var n := Announced(s.hdr);
      ReadDone(true, left[..if n <= |left| then n else 0])
  }

  /** Such a run exists for every stream. */
  lemma {:induction false} StreamIsServed(before: seq<Event>, left: seq<byte>) returns (events: seq<Event>)
    requires AllUndisturbed(before)
    ensures AllUndisturbed(events) && |After(events).received| <= |After(before).received + left|
    ensures After(events).received <= After(before).received + left
    ensures Exhausted(After(events), (After(before).received + left)[|After(events).received|..])
    decreases |left|, if After(before).awaiting == Nothing then 0 else 1
  {
    var s := After(before);
    RunsKeepReadInv(before);
    if Exhausted(s, left) {
      events := before;
      Behind(s.received, left);
    } else {
      var e := Serve(s, left);
      var next := before + [e];
      AfterSnoc(before, e);
      ServeIsEnabled(s, left);
      var rest := left[|e.chunk|..];
      assert After(next).received + rest == s.received + left;
      events := StreamIsServed(next, rest);
    }
  }

  lemma ServeIsEnabled(s: State, left: seq<byte>)
    requires |s.hdr| == 8 && !Exhausted(s, left)
    ensures var e := Serve(s, left);
      && Enabled(s, e) && e.ok && e.chunk <= left && Step(s, e).received == s.received + e.chunk
      && (e.chunk == [] ==> Step(s, e).awaiting == Nothing)
  {
  }
}
