/** The pipelined asynchronous client: one write in flight, a queue of reply handlers, and a read loop that
    hands arbitrary segments to the parser. */
module RedisClient {
  import opened Bytes
  import opened RespMachine
  import opened RespGrammar
  import opened RespEncoding
  import opened RespStream
  import P = RedisParser

  /** Handlers are opaque callbacks; only their identity matters here. */
  type Handler = nat
  datatype QueueItem = QueueItem(buff: seq<byte>, handler: Handler)
  datatype Call = Call(handler: Handler, reply: RedisValue)
  datatype Fault = WriteFault | ReadFault | ParserFault | UnexpectedMessage

  /** What the client holds and what it has done so far.  `writing` and `reading` say whether an asynchronous
      operation is outstanding, `sent` lists the buffers whose write has completed. */
  datatype ClientState = ClientState(
    queue: seq<QueueItem>,
    handlers: seq<Handler>,
    c: Config,
    writing: bool,
    reading: bool,
    sent: seq<seq<byte>>,
    calls: seq<Call>,
    faults: seq<Fault>)

  const CONNECTED := ClientState([], [], INITIAL, false, true, [], [], [])

  function Issue(s: ClientState, buff: seq<byte>, h: Handler): ClientState {
    s.(queue := s.queue + [QueueItem(buff, h)], handlers := s.handlers + [h], writing := s.writing || s.queue == [])
  }

  function WriteDone(s: ClientState, ok: bool): ClientState
    requires s.queue != []
  {
    if !ok then s.(writing := false, faults := s.faults + [WriteFault])
    else s.(queue := s.queue[1..], sent := s.sent + [s.queue[0].buff], writing := |s.queue| > 1)
  }

  function Dispatch(s: ClientState, v: RedisValue): ClientState {
    if s.handlers == [] then s.(faults := s.faults + [UnexpectedMessage])
    else s.(handlers := s.handlers[1..], calls := s.calls + [Call(s.handlers[0], v)])
  }

  function DispatchAll(s: ClientState, vs: seq<RedisValue>): ClientState
    decreases |vs|
  {
    if vs == [] then s else DispatchAll(Dispatch(s, vs[0]), vs[1..])
  }

  /** What a segment does to the client: dispatch what it completes, then read on or give up. */
  function Absorb(s: ClientState, segment: seq<byte>): ClientState {
    var f := Feed(s.c, segment);
    var t := DispatchAll(s, f.values);
    if f.failed then t.(c := INITIAL, reading := false, faults := t.faults + [ParserFault])
    else t.(c := f.c)
  }

  function ReadDone(s: ClientState, ok: bool, segment: seq<byte>): ClientState {
    if !ok || segment == [] then s.(reading := false, faults := s.faults + [ReadFault])
    else Absorb(s, segment)
  }

  /** What can happen next: the application issues a command, a write completes, a read completes. */
  datatype Event =
    | Command(items: seq<seq<byte>>, handler: Handler)
    | Written(ok: bool)
    | Received(ok: bool, segment: seq<byte>)

  /** A completion can only arrive for an operation that is outstanding. */
  function Occur(s: ClientState, e: Event): ClientState {
    match e
    case Command(items, h) => Issue(s, Encode(CommandValue(items)), h)
    case Written(ok) => if s.writing && s.queue != [] then WriteDone(s, ok) else s
    case Received(ok, segment) => if s.reading then ReadDone(s, ok, segment) else s
  }

  function After(events: seq<Event>): ClientState {
    if events == [] then CONNECTED else Occur(After(events[..|events| - 1]), events[|events| - 1])
  }

  lemma {:induction false} DispatchAllFrame(s: ClientState, c: Config, vs: seq<RedisValue>)
    ensures DispatchAll(s.(c := c), vs) == DispatchAll(s, vs).(c := c)
    decreases |vs|
  {
    if vs != [] {
      assert Dispatch(s.(c := c), vs[0]) == Dispatch(s, vs[0]).(c := c);
      DispatchAllFrame(Dispatch(s, vs[0]), c, vs[1..]);
    }
  }

  /** One turn of the read loop. */
  lemma AbsorbParse(s: ClientState, segment: seq<byte>)
    ensures var o := Run(s.c, segment);
      && (o.More? ==> Absorb(s, segment) == s.(c := o.c))
      && (o.Bad? ==> Absorb(s, segment) == s.(c := INITIAL, reading := false, faults := s.faults + [ParserFault]))
      && (o.Done? ==> Absorb(s, segment) == Absorb(Dispatch(s.(c := INITIAL), o.v), segment[o.n..]))
  {
    match Run(s.c, segment) {
      case Done(v, n) =>
        var f := Feed(INITIAL, segment[n..]);
        assert ([v] + f.values)[1..] == f.values;
        assert Dispatch(s.(c := INITIAL), v) == Dispatch(s, v).(c := INITIAL);
        DispatchAllFrame(Dispatch(s, v), INITIAL, f.values);
      case _ =>
    }
  }

  lemma AbsorbNothing(s: ClientState)
    requires s.c == INITIAL
    ensures Absorb(s, []) == s
  {
  }

  lemma AfterSnoc(events: seq<Event>, e: Event)
    ensures After(events + [e]) == Occur(After(events), e)
  {
    assert (events + [e])[..|events|] == events;
  }

  /** Once the client has stopped reading, its parser plays no part in what happens. */
  lemma ParserForgotten(s: ClientState, c: Config, e: Event)
    requires !s.reading
    ensures Occur(s.(c := c), e) == Occur(s, e).(c := c) && !Occur(s, e).reading
  {
  }

  class RedisClient {
    var queue: seq<QueueItem>
    var handlers: seq<Handler>
    const parser: P.RedisParser
    ghost var writing: bool
    ghost var reading: bool
    ghost var sent: seq<seq<byte>>
    ghost var calls: seq<Call>
    ghost var faults: seq<Fault>
    ghost var history: seq<Event>

    ghost predicate Valid()
      reads this, parser
    {
      && parser.Valid() && parser.Base() == []
      && (writing ==> queue != [])
    }

    ghost function Snapshot(): ClientState
      requires Valid()
      reads this, parser
    {
      ClientState(queue, handlers, parser.Abs(), writing, reading, sent, calls, faults)
    }

    /** The client is in state `t`; once it has stopped reading, its parser no longer matters. */
    ghost predicate In(t: ClientState)
      reads this, parser
    {
      Valid() && Snapshot().(c := t.c) == t && (t.reading ==> parser.Abs() == t.c)
    }

    /** The client is where the run of everything that has happened to it leads. */
    ghost predicate Lives()
      reads this, parser
    {
      In(After(history))
    }

    constructor ()
      ensures Lives() && history == [] && fresh(parser)
    {
      history := [];
      queue, handlers := [], [];
      parser := new P.RedisParser();
      writing, reading := false, true;
      sent, calls, faults := [], [], [];
    }

    method DoAsyncCommand(buff: seq<byte>, handler: Handler)
      requires Valid()
      modifies this`queue, this`handlers, this`writing
      ensures In(Issue(old(Snapshot()), buff, handler))
    {
      queue := queue + [QueueItem(buff, handler)];
      handlers := handlers + [handler];
      if |queue| == 1 {
        writing := true;
      }
    }

    method AsyncWrite(ok: bool)
      requires Valid() && writing
      modifies this`queue, this`writing, this`sent, this`faults
      ensures In(WriteDone(old(Snapshot()), ok))
    {
      if !ok {
        faults := faults + [WriteFault];
        writing := false;
        return;
      }
      sent := sent + [queue[0].buff];
      queue := queue[1..];
      writing := queue != [];
    }

    method DoProcessMessage(v: RedisValue)
      requires Valid()
      modifies this`handlers, this`calls, this`faults
      ensures In(Dispatch(old(Snapshot()), v))
      ensures parser.Abs() == old(parser.Abs()) && reading == old(reading)
    {
      if handlers != [] {
        calls := calls + [Call(handlers[0], v)];
        handlers := handlers[1..];
      } else {
        faults := faults + [UnexpectedMessage];
      }
    }

    /** The read loop: every completed reply advances the position, so it ends for every segment. */
    method AsyncRead(ok: bool, segment: seq<byte>)
      requires Valid() && reading
      modifies this`handlers, this`calls, this`faults, this`reading, parser
      ensures In(ReadDone(old(Snapshot()), ok, segment))
    {
      hide Run, Feed, DispatchAll, Absorb;
      if !ok || segment == [] {
        reading := false;
        faults := faults + [ReadFault];
        return;
      }
      ghost var end := Absorb(Snapshot(), segment);
      var pos := 0;
      assert segment[0..] == segment;
      while pos < |segment|
        invariant pos <= |segment| && Valid() && reading
        invariant end == Absorb(Snapshot(), segment[pos..])
        invariant pos == |segment| ==> parser.Abs() == INITIAL
        decreases |segment| - pos
      {
        var n, r := ParseOne(segment[pos..]);
        if r == P.Incompleted {
          return;
        } else if r == P.Error {
          reading := false;
          faults := faults + [ParserFault];
          return;
        }
        assert segment[pos..][n..] == segment[pos + n..];
        pos := pos + n;
      }
      AbsorbNothing(Snapshot());
      assert segment[pos..] == [];
    }

    /** One call of the parser and, when it completes a reply, the call of its handler. */
    method ParseOne(data: seq<byte>) returns (n: nat, r: P.ParseResult)
      requires Valid() && reading && data != []
      modifies this`handlers, this`calls, this`faults, this`reading, parser
      ensures Valid() && reading && n <= |data| && (r != P.Incompleted ==> n >= 1)
      ensures r == P.Completed ==>
                parser.Abs() == INITIAL && Absorb(old(Snapshot()), data) == Absorb(Snapshot(), data[n..])
      ensures r == P.Incompleted ==> Absorb(old(Snapshot()), data) == Snapshot()
      ensures r == P.Error ==>
                Absorb(old(Snapshot()), data)
                == Snapshot().(c := INITIAL, reading := false, faults := faults + [ParserFault])
    {
      hide Run, Feed, DispatchAll, Absorb;
      AbsorbParse(Snapshot(), data);
      n, r := parser.Parse(data);
      if r == P.Completed {
        var v := parser.Result();
        DoProcessMessage(v);
      }
    }

    // ----- What happens to a client -----

    /** What has been done since state `s` is the step for `e`. */
    ghost method Record(e: Event, s: ClientState)
      requires s.(c := After(history).c) == After(history) && (After(history).reading ==> s.c == After(history).c)
      requires In(Occur(s, e))
      modifies this`history
      ensures Lives() && history == old(history) + [e]
    {
      hide Occur;
      AfterSnoc(history, e);
      if !s.reading {
        ParserForgotten(s, After(history).c, e);
      }
      history := history + [e];
    }

    /** `command`: encode the arguments and queue them. */
    method Command(items: seq<seq<byte>>, handler: Handler)
      requires Lives()
      modifies this
      ensures Lives() && history == old(history) + [Event.Command(items, handler)]
    {
      hide After, Encode;
      ghost var s := Snapshot();
      var buff := MakeCommand(items);
      DoAsyncCommand(buff, handler);
      Record(Event.Command(items, handler), s);
    }

    method OnWritten(ok: bool)
      requires Lives() && writing
      modifies this
      ensures Lives() && history == old(history) + [Written(ok)]
    {
      hide After;
      ghost var s := Snapshot();
      AsyncWrite(ok);
      Record(Written(ok), s);
    }

    method OnReceived(ok: bool, segment: seq<byte>)
      requires Lives() && reading
      modifies this, parser
      ensures Lives() && history == old(history) + [Received(ok, segment)]
    {
      hide After, ReadDone;
      ghost var s := Snapshot();
      AsyncRead(ok, segment);
      Record(Received(ok, segment), s);
    }
  }
}
