/** The session's reader, which frames the incoming stream, and its writer, which keeps one write in flight. */
module Session {
  import opened Bytes
  import opened Frames

  /** Which asynchronous read is outstanding. */
  datatype Awaiting = Nothing | Head | Body

  /** `received` is everything read from the socket, `posted` every message handed to the writer, `written` the
      messages whose write has completed, well or not. */
  datatype State = State(
    started: bool,
    awaiting: Awaiting,
    hdr: seq<byte>,
    rbuf: seq<byte>,
    received: seq<byte>,
    dispatched: seq<Packet>,
    writing: bool,
    sque: seq<seq<byte>>,
    posted: seq<seq<byte>>,
    written: seq<seq<byte>>)

  const NO_HEADER: seq<byte> := [0, 0, 0, 0, 0, 0, 0, 0]
  const STARTED := State(true, Head, NO_HEADER, [], [], [], false, [], [], [])

  datatype Event =
    | ReadDone(ok: bool, chunk: seq<byte>)
    | Stop
    | Post(msg: seq<byte>)
    | WriteDone(ok: bool)

  /** A completed read transfers exactly what was asked for; a failed one less than that. */
  predicate Transfers(wanted: nat, ok: bool, got: nat) {
    if ok then got == wanted else got < wanted || wanted == 0 == got
  }

  predicate Enabled(s: State, e: Event) {
    match e
    case ReadDone(ok, chunk) =>
      && |s.hdr| == HEADER_SIZE
      && ((s.awaiting == Head && Transfers(HEADER_SIZE, ok, |chunk|))
          || (s.awaiting == Body && Transfers(BodyLen(s.hdr), ok, |chunk|)))
    case Stop => true
    case Post(_) => true
    case WriteDone(_) => s.writing && s.sque != []
  }

  function HeadStep(s: State, ok: bool, chunk: seq<byte>): State
    requires ok ==> |chunk| == HEADER_SIZE
  {
    var t := s.(rbuf := s.rbuf + chunk, received := s.received + chunk, awaiting := Nothing);
    if !ok then t.(started := false)
    else if ValidHead(t.rbuf) then t.(hdr := t.rbuf[..HEADER_SIZE], awaiting := Body)
    else t.(hdr := NO_HEADER, rbuf := t.rbuf[HEADER_SIZE..], started := false)
  }

  function BodyStep(s: State, ok: bool, chunk: seq<byte>): State
    requires |s.hdr| == HEADER_SIZE && (ok ==> |chunk| == BodyLen(s.hdr))
  {
    var t := s.(rbuf := s.rbuf + chunk, received := s.received + chunk, awaiting := Nothing);
    if !ok || chunk == [] then t.(started := false)
    else
      var n := HEADER_SIZE + BodyLen(s.hdr);
      t.(dispatched := t.dispatched + [t.rbuf], rbuf := if n <= |t.rbuf| then t.rbuf[n..] else [],
         awaiting := if s.started then Head else Nothing)
  }

  function PostStep(s: State, msg: seq<byte>): State {
    if msg == [] then s
    else s.(sque := s.sque + [msg], posted := s.posted + [msg], writing := s.writing || s.sque == [])
  }

  function WriteDoneStep(s: State, ok: bool): State
    requires s.sque != []
  {
    s.(sque := s.sque[1..], written := s.written + [s.sque[0]], writing := ok && |s.sque| > 1)
  }

  function Step(s: State, e: Event): State {
    if !Enabled(s, e) then s
    else
      match e
      case ReadDone(ok, chunk) => if s.awaiting == Head then HeadStep(s, ok, chunk) else BodyStep(s, ok, chunk)
      case Stop => s.(started := false)
      case Post(msg) => PostStep(s, msg)
      case WriteDone(ok) => WriteDoneStep(s, ok)
  }

  function After(events: seq<Event>): State {
    if events == [] then STARTED else Step(After(events[..|events| - 1]), events[|events| - 1])
  }

  // ----- Reading -----

  /** Between reads the buffer is empty; while a body is awaited it holds exactly the header. */
  ghost predicate ReadInv(s: State) {
    && |s.hdr| == HEADER_SIZE
    && AllPackets(s.dispatched)
    && s.dispatched == Packets(s.received)
    && (s.awaiting == Head ==> s.rbuf == [] && s.received == Join(s.dispatched))
    && (s.awaiting == Body ==> s.rbuf == s.hdr && ValidHead(s.hdr) && s.received == Join(s.dispatched) + s.hdr)
  }

  lemma CutOffAddsNothing(ps: seq<Packet>, tail: seq<byte>)
    requires AllPackets(ps)
    requires |tail| < HEADER_SIZE || !ValidHead(tail) || BodyLen(tail) == 0 || |tail| < HEADER_SIZE + BodyLen(tail)
    ensures Packets(Join(ps) + tail) == ps
  {
    PacketsOfJoin(ps, tail);
    assert ps + [] == ps;
  }

  lemma HeadKeepsReadInv(s: State, ok: bool, chunk: seq<byte>)
    requires ReadInv(s) && s.awaiting == Head && Enabled(s, ReadDone(ok, chunk))
    ensures ReadInv(HeadStep(s, ok, chunk))
  {
    assert s.rbuf + chunk == chunk;
    CutOffAddsNothing(s.dispatched, chunk);
  }

  lemma HeaderKept(h: seq<byte>, chunk: seq<byte>)
    requires |h| == HEADER_SIZE && ValidHead(h)
    ensures ValidHead(h + chunk) && BodyLen(h + chunk) == BodyLen(h)
    ensures |chunk| == BodyLen(h) > 0 ==> IsPacket(h + chunk)
  {
  }

  lemma BodyKeepsReadInv(s: State, ok: bool, chunk: seq<byte>)
    requires ReadInv(s) && s.awaiting == Body && Enabled(s, ReadDone(ok, chunk))
    ensures ReadInv(BodyStep(s, ok, chunk))
  {
    hide Packets, IsPacket, ValidHead, BodyLen, Join;
    var p := s.hdr + chunk;
    assert s.received + chunk == Join(s.dispatched) + p;
    HeaderKept(s.hdr, chunk);
    if !ok || chunk == [] {
      CutOffAddsNothing(s.dispatched, p);
    } else {
      JoinSnoc(s.dispatched, p);
      FirstPacket(p, []);
      NoPackets();
      assert p + [] == p && [p] + [] == [p];
      PacketsOfJoin(s.dispatched, p);
    }
  }

  lemma NoPackets()
    ensures Packets([]) == []
  {
  }

  lemma {:induction false} RunsKeepReadInv(events: seq<Event>)
    ensures ReadInv(After(events))
    decreases |events|
  {
    if events != [] {
      var before, e := events[..|events| - 1], events[|events| - 1];
      RunsKeepReadInv(before);
      var s := After(before);
      if e.ReadDone? && Enabled(s, e) {
        if s.awaiting == Head {
          HeadKeepsReadInv(s, e.ok, e.chunk);
        } else {
          BodyKeepsReadInv(s, e.ok, e.chunk);
        }
      }
    }
  }

  /** Framing: in every run, whatever stops, posts and writes happen in between, the packets dispatched are
      exactly the longest list of packets that the bytes received start with, in order. */
  lemma DispatchesThePackets(events: seq<Event>, ps: seq<Packet>)
    ensures var s := After(events);
      && s.dispatched == Packets(s.received)
      && (s.awaiting == Head ==> s.rbuf == [])
      && (s.awaiting == Body ==> s.rbuf == s.hdr && |s.rbuf| == HEADER_SIZE)
      && (AllPackets(ps) && Join(ps) <= s.received ==> ps <= s.dispatched)
  {
    RunsKeepReadInv(events);
    if AllPackets(ps) && Join(ps) <= After(events).received {
      PacketsIsLongest(After(events).received, ps);
    }
  }

  // ----- Writing -----

  ghost predicate WriteInv(s: State) {
    s.posted == s.written + s.sque && (s.writing ==> s.sque != [])
  }

  /** A queue that nobody is writing. */
  predicate Stuck(s: State) {
    s.sque != [] && !s.writing
  }

  /** The one way to strand the queue: a write fails while another message waits behind it. */
  predicate Strands(s: State, e: Event) {
    Enabled(s, e) && e == WriteDone(false) && |s.sque| > 1
  }

  lemma StepKeepsWriteInv(s: State, e: Event)
    requires WriteInv(s)
    ensures WriteInv(Step(s, e))
    ensures Stuck(Step(s, e)) <==> Stuck(s) || Strands(s, e)
    ensures Stuck(s) ==> Step(s, e).written == s.written
  {
    if Enabled(s, e) && e.Post? && e.msg != [] {
      assert s.written + (s.sque + [e.msg]) == s.written + s.sque + [e.msg];
    }
    if Enabled(s, e) && e.WriteDone? {
      assert s.written + [s.sque[0]] + s.sque[1..] == s.written + s.sque;
    }
  }

  ghost predicate Stranded(events: seq<Event>) {
    exists k :: 0 <= k < |events| && Strands(After(events[..k]), events[k])
  }

  /** The messages handed to the writer in a run; empty ones are not accepted. */
  function Posted(events: seq<Event>): seq<seq<byte>> {
    if events == [] then []
    else
      var e := events[|events| - 1];
      Posted(events[..|events| - 1]) + if e.Post? && e.msg != [] then [e.msg] else []
  }

  lemma {:induction false} PostedExactly(events: seq<Event>)
    ensures After(events).posted == Posted(events)
    decreases |events|
  {
    if events != [] {
      var before := events[..|events| - 1];
      PostedExactly(before);
      assert Posted(before) + [] == Posted(before);
    }
  }

  /** Single writer: at most one write is outstanding and it is the queue's front; completed messages followed
      by the queue are the messages posted, in order.  A write is outstanding exactly when the queue is
      non-empty, unless a failed write has ever stranded the queue - and then that is the end of writing. */
  lemma {:induction false} SingleWriter(events: seq<Event>)
    ensures var s := After(events);
      && s.posted == s.written + s.sque == Posted(events)
      && (s.writing ==> s.sque != [])
      && ((s.writing <==> s.sque != []) <==> !Stranded(events))
    decreases |events|
  {
    PostedExactly(events);
    var n := |events|;
    if n > 0 {
      var before, e := events[..n - 1], events[n - 1];
      SingleWriter(before);
      StepKeepsWriteInv(After(before), e);
      if Stranded(before) {
        var k :| 0 <= k < n - 1 && Strands(After(before[..k]), before[k]);
        assert before[..k] == events[..k];
        assert Strands(After(events[..k]), events[k]);
      }
      if Strands(After(before), e) {
        assert Strands(After(events[..n - 1]), events[n - 1]);
      }
      if Stranded(events) {
        var k :| 0 <= k < n && Strands(After(events[..k]), events[k]);
        if k < n - 1 {
          assert before[..k] == events[..k] && before[k] == events[k];
        }
      }
    }
  }

  lemma AfterSnoc(events: seq<Event>, e: Event)
    ensures After(events + [e]) == Step(After(events), e)
  {
    assert (events + [e])[..|events|] == events;
  }

  /** Two messages posted and a failed write are enough. */
  lemma QueueIsStranded(first: seq<byte>, second: seq<byte>) returns (run: seq<Event>)
    requires first != [] && second != []
    ensures Stranded(run) && After(run).started && After(run).sque == [second] && !After(run).writing
  {
    var posted := [] + [Post(first)] + [Post(second)];
    AfterSnoc([], Post(first));
    AfterSnoc([] + [Post(first)], Post(second));
    AfterSnoc(posted, WriteDone(false));
    run := posted + [WriteDone(false)];
    assert run[..2] == posted && Strands(After(run[..2]), run[2]);
  }

  lemma {:induction false} StrandedForGood(events: seq<Event>, more: seq<Event>)
    requires Stranded(events)
    ensures After(events + more).written == After(events).written && Stuck(After(events + more))
    decreases |more|
  {
    hide After, Step, Stranded;
    SingleWriter(events);
    var n := |more|;
    if n == 0 {
      assert events + more == events;
    } else {
      var before := events + more[..n - 1];
      assert events + more == before + [more[n - 1]];
      StrandedForGood(events, more[..n - 1]);
      SingleWriter(before);
      AfterSnoc(before, more[n - 1]);
      StepKeepsWriteInv(After(before), more[n - 1]);
    }
  }

  // ----- The program -----

  /** The fields of a session that its reader and writer work on; login and close are in module `SessionMgr`. */
  class CSession {
    var started: bool
    var hdr: seq<byte>
    var rbuf: seq<byte>
    var sque: seq<seq<byte>>
    ghost var awaiting: Awaiting
    ghost var received: seq<byte>
    ghost var dispatched: seq<Packet>
    ghost var writing: bool
    ghost var posted: seq<seq<byte>>
    ghost var written: seq<seq<byte>>

    ghost function Now(): State
      reads this
    {
      State(started, awaiting, hdr, rbuf, received, dispatched, writing, sque, posted, written)
    }

    constructor ()
      ensures Now() == STARTED
    {
      started, hdr, rbuf, sque := true, NO_HEADER, [], [];
      awaiting, received, dispatched := Head, [], [];
      writing, posted, written := false, [], [];
    }

    method Halt()
      modifies this`started
      ensures Now() == old(Now()).(started := false)
    {
      started := false;
    }

    method DoRead()
      modifies this`awaiting
      ensures Now() == old(Now()).(awaiting := if started then Head else old(awaiting))
    {
      if started {
        awaiting := Head;
      }
    }

    method OnReadHead(ok: bool, chunk: seq<byte>)
      requires awaiting == Head && Enabled(Now(), ReadDone(ok, chunk))
      modifies this
      ensures Now() == HeadStep(old(Now()), ok, chunk)
    {
      rbuf, received, awaiting := rbuf + chunk, received + chunk, Nothing;
      if !ok || |chunk| == 0 {
        Halt();
        return;
      }
      var valid := CheckHead();
      if !valid {
        Halt();
        return;
      }
      awaiting := Body;
    }

    method CheckHead() returns (valid: bool)
      requires |rbuf| >= HEADER_SIZE
      modifies this`hdr, this`rbuf
      ensures valid == ValidHead(old(rbuf))
      ensures hdr == if valid then old(rbuf)[..HEADER_SIZE] else NO_HEADER
      ensures rbuf == if valid then old(rbuf) else old(rbuf)[HEADER_SIZE..]
    {
      hdr := rbuf[..HEADER_SIZE];
      if (hdr[0] == H1 && hdr[1] == H2) && (ENCRYP == hdr[3] || NOENCRYP == hdr[3]) {
        return true;
      }
      hdr := NO_HEADER;
      rbuf := rbuf[HEADER_SIZE..];
      return false;
    }

    method OnReadBody(ok: bool, chunk: seq<byte>)
      requires awaiting == Body && Enabled(Now(), ReadDone(ok, chunk))
      modifies this
      ensures Now() == BodyStep(old(Now()), ok, chunk)
    {
      rbuf, received, awaiting := rbuf + chunk, received + chunk, Nothing;
      if !ok || |chunk| == 0 {
        Halt();
        return;
      }
      dispatched := dispatched + [rbuf];
      Consume(HEADER_SIZE + BodyLen(hdr));
      DoRead();
    }

    method Consume(n: nat)
      modifies this`rbuf
      ensures rbuf == if n <= |old(rbuf)| then old(rbuf)[n..] else []
    {
      rbuf := if n <= |rbuf| then rbuf[n..] else [];
    }

    method DoWrite(msg: seq<byte>)
      modifies this
      ensures Now() == PostStep(old(Now()), msg)
    {
      if |msg| <= 0 {
        return;
      }
      WriteImpl(msg);
    }

    method WriteImpl(msg: seq<byte>)
      requires msg != []
      modifies this
      ensures Now() == PostStep(old(Now()), msg)
    {
      sque := sque + [msg];
      posted := posted + [msg];
      if |sque| > 1 {
        return;
      }
      Write();
    }

    /** Start writing the front of the queue. */
    method Write()
      requires sque != []
      modifies this`writing
      ensures writing
    {
      writing := true;
    }

    method OnWriteComplete(ok: bool)
      requires Enabled(Now(), WriteDone(ok))
      modifies this
      ensures Now() == WriteDoneStep(old(Now()), ok)
    {
      written := written + [sque[0]];
      sque := sque[1..];
      writing := false;
      if !ok {
        return;
      }
      if sque != [] {
        Write();
      }
    }
  }
}
