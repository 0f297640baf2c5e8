/** Whole runs of a connected client against an honest server. */
module Pipeline {
  import opened Bytes
  import opened Numbers
  import opened RespMachine
  import opened RespGrammar
  import opened RespEncoding
  import opened RespStream
  import opened RedisClient

  /** The handlers of the commands issued, in order. */
  function Handlers(events: seq<Event>): seq<Handler> {
    if events == [] then []
    else
      var e := events[|events| - 1];
      Handlers(events[..|events| - 1]) + if e.Command? then [e.handler] else []
  }

  function Commands(events: seq<Event>): seq<seq<seq<byte>>> {
    if events == [] then []
    else
      var e := events[|events| - 1];
      Commands(events[..|events| - 1]) + if e.Command? then [e.items] else []
  }

  predicate FailsToRead(e: Event) {
    e.Received? && (!e.ok || e.segment == [])
  }

  /** A read has failed; the client does not start another. */
  predicate ReadFailed(events: seq<Event>) {
    exists k :: 0 <= k < |events| && FailsToRead(events[k])
  }

  /** All bytes received up to the first failure, however they were cut. */
  function Stream(events: seq<Event>): seq<byte> {
    if events == [] then []
    else
      var e := events[|events| - 1];
      Stream(events[..|events| - 1]) + if e.Received? && !ReadFailed(events) then e.segment else []
  }

  /** At every moment of the run the bytes received are no more than the replies to the commands issued so far. */
  ghost predicate Honest(events: seq<Event>, replies: seq<Reply>) {
    events != [] ==>
      && Honest(events[..|events| - 1], replies)
      && Stream(events) <= RenderAll(replies[..Min(|Handlers(events)|, |replies|)])
  }

  // ----- Reading -----

  function Zip(hs: seq<Handler>, vs: seq<RedisValue>): seq<Call>
    requires |vs| <= |hs|
  {
    seq(|vs|, k requires 0 <= k < |vs| => Call(hs[k], vs[k]))
  }

  lemma {:induction false} DispatchInOrder(s: ClientState, vs: seq<RedisValue>)
    requires |vs| <= |s.handlers|
    ensures DispatchAll(s, vs) == s.(handlers := s.handlers[|vs|..], calls := s.calls + Zip(s.handlers, vs))
    decreases |vs|
  {
    if vs != [] {
      DispatchInOrder(Dispatch(s, vs[0]), vs[1..]);
      var hs := s.handlers;
      assert hs[1..][|vs| - 1..] == hs[|vs|..];
      assert s.calls + [Call(hs[0], vs[0])] + Zip(hs[1..], vs[1..]) == s.calls + Zip(hs, vs);
    } else {
      assert s.calls + Zip(s.handlers, []) == s.calls;
    }
  }

  lemma {:induction false} RenderAllPrefix(rs: seq<Reply>, m: nat)
    requires m <= |rs|
    ensures RenderAll(rs[..m]) <= RenderAll(rs)
    ensures forall n: nat :: n <= |RenderAll(rs[..m])| ==> Complete(rs, n) <= m
    decreases m
  {
    if m == 0 {
      assert rs[..0] == [];
    } else {
      assert rs[..m][1..] == rs[1..][..m - 1];
      RenderAllPrefix(rs[1..], m - 1);
    }
  }

  lemma {:induction false} CompleteAll(rs: seq<Reply>)
    ensures Complete(rs, |RenderAll(rs)|) == |rs|
  {
    if rs != [] {
      CompleteAll(rs[1..]);
    }
  }

  /** What a client has done, in terms of the commands issued and the bytes received alone. */
  ghost predicate InStep(s: ClientState, hs: seq<Handler>, stream: seq<byte>, replies: seq<Reply>) {
    var k := Complete(replies, |stream|);
    && Feed(INITIAL, stream) == Feeding(Meanings(replies)[..k], s.c, false)
    && k <= |hs|
    && s.handlers == hs[k..]
    && s.calls == Zip(hs, Meanings(replies)[..k])
    && ParserFault !in s.faults && UnexpectedMessage !in s.faults
  }

  /** What the next segment adds to the values of the stream: those of the replies it completes. */
  lemma NextValues(stream: seq<byte>, segment: seq<byte>, c: Config, replies: seq<Reply>)
    requires AllWellFormed(replies) && stream + segment <= RenderAll(replies)
    requires Feed(INITIAL, stream) == Feeding(Meanings(replies)[..Complete(replies, |stream|)], c, false)
    ensures var j, k := Complete(replies, |stream|), Complete(replies, |stream + segment|);
            && j <= k && Feed(c, segment).values == Meanings(replies)[j..k] && !Feed(c, segment).failed
            && Feed(INITIAL, stream + segment) == Feeding(Meanings(replies)[..k], Feed(c, segment).c, false)
  {
    hide Feed, Meanings, RenderAll, AllWellFormed, Complete;
    FeedPrefix(replies, stream + segment);
    FeedAppend(INITIAL, stream, segment);
    var j, k := Complete(replies, |stream|), Complete(replies, |stream + segment|);
    var vs, f := Meanings(replies), Feed(c, segment);
    assert vs[..j] + f.values == vs[..k];
    assert |vs[..k]| == |vs[..j]| + |f.values|;
    assert f.values == (vs[..j] + f.values)[j..] == vs[j..k];
  }

  lemma ZipAppend(hs: seq<Handler>, vs: seq<RedisValue>, j: nat, k: nat)
    requires j <= k <= |vs| && k <= |hs|
    ensures Zip(hs, vs[..j]) + Zip(hs[j..], vs[j..k]) == Zip(hs, vs[..k])
  {
  }

  lemma AbsorbValues(s: ClientState, segment: seq<byte>, vs: seq<RedisValue>)
    requires Feed(s.c, segment).values == vs && !Feed(s.c, segment).failed && |vs| <= |s.handlers|
    ensures Absorb(s, segment)
         == s.(c := Feed(s.c, segment).c, handlers := s.handlers[|vs|..], calls := s.calls + Zip(s.handlers, vs))
  {
    hide Feed, DispatchAll, Zip;
    DispatchInOrder(s, vs);
  }

  lemma PrefixReplies(replies: seq<Reply>, m: nat, stream: seq<byte>)
    requires m <= |replies| && stream <= RenderAll(replies[..m])
    ensures stream <= RenderAll(replies) && Complete(replies, |stream|) <= m
  {
    hide RenderAll, Complete;
    RenderAllPrefix(replies, m);
  }

  /** The calls of the next values continue those made before. */
  lemma CallsContinue(s: ClientState, hs: seq<Handler>, vs: seq<RedisValue>, j: nat, k: nat)
    requires j <= k <= |vs| && k <= |hs|
    requires s.handlers == hs[j..] && s.calls == Zip(hs, vs[..j])
    ensures s.handlers[k - j..] == hs[k..] && s.calls + Zip(s.handlers, vs[j..k]) == Zip(hs, vs[..k])
  {
    ZipAppend(hs, vs, j, k);
  }

  lemma ReceiveKeepsStep(
      s: ClientState, hs: seq<Handler>, stream: seq<byte>, segment: seq<byte>, replies: seq<Reply>, m: nat)
    requires AllWellFormed(replies) && InStep(s, hs, stream, replies)
    requires m <= |hs| && m <= |replies| && stream + segment <= RenderAll(replies[..m])
    ensures InStep(Absorb(s, segment), hs, stream + segment, replies) && Absorb(s, segment).reading == s.reading
  {
    hide Feed, Meanings, RenderAll, AllWellFormed, Complete, Absorb, Zip;
    var j, k := Complete(replies, |stream|), Complete(replies, |stream + segment|);
    PrefixReplies(replies, m, stream + segment);
    NextValues(stream, segment, s.c, replies);
    CallsContinue(s, hs, Meanings(replies), j, k);
    AbsorbValues(s, segment, Meanings(replies)[j..k]);
  }

  lemma IssueKeepsStep(
      s: ClientState, hs: seq<Handler>, stream: seq<byte>, replies: seq<Reply>, buff: seq<byte>, h: Handler)
    requires InStep(s, hs, stream, replies)
    ensures InStep(Issue(s, buff, h), hs + [h], stream, replies) && Issue(s, buff, h).reading == s.reading
  {
    hide Feed, Meanings, Complete;
    var k := Complete(replies, |stream|);
    assert hs[k..] + [h] == (hs + [h])[k..];
    assert Zip(hs + [h], Meanings(replies)[..k]) == Zip(hs, Meanings(replies)[..k]);
  }

  lemma WriteKeepsStep(s: ClientState, hs: seq<Handler>, stream: seq<byte>, replies: seq<Reply>, ok: bool)
    requires InStep(s, hs, stream, replies) && s.queue != []
    ensures InStep(WriteDone(s, ok), hs, stream, replies) && WriteDone(s, ok).reading == s.reading
  {
    hide Feed, Meanings, Complete, Zip;
  }

  lemma FailKeepsStep(s: ClientState, hs: seq<Handler>, stream: seq<byte>, replies: seq<Reply>)
    requires InStep(s, hs, stream, replies)
    ensures InStep(s.(reading := false, faults := s.faults + [ReadFault]), hs, stream, replies)
  {
    hide Feed, Meanings, Complete, Zip;
  }

  lemma NothingYet(replies: seq<Reply>)
    ensures InStep(CONNECTED, [], [], replies)
  {
    assert Meanings(replies)[..0] == [] && Complete(replies, 0) == 0;
  }

  lemma ReadFailedSnoc(events: seq<Event>, e: Event)
    ensures ReadFailed(events + [e]) <==> ReadFailed(events) || FailsToRead(e)
  {
    var all := events + [e];
    if ReadFailed(events) {
      var k :| 0 <= k < |events| && FailsToRead(events[k]);
      assert FailsToRead(all[k]);
    }
    assert all[|events|] == e;
  }

  lemma {:induction false} HonestRunsInStep(events: seq<Event>, replies: seq<Reply>)
    requires AllWellFormed(replies) && Honest(events, replies)
    ensures InStep(After(events), Handlers(events), Stream(events), replies)
    ensures After(events).reading <==> !ReadFailed(events)
    decreases |events|
  {
    hide InStep, AllWellFormed, RenderAll, ReadFailed, Absorb, Issue, WriteDone, Encode;
    if events == [] {
      NothingYet(replies);
      assert !ReadFailed(events) by {
        NoneFailed(events);
      }
    } else {
      var before, e := events[..|events| - 1], events[|events| - 1];
      assert events == before + [e];
      HonestRunsInStep(before, replies);
      ReadFailedSnoc(before, e);
      var s, hs, stream := After(before), Handlers(before), Stream(before);
      assert stream + [] == stream && hs + [] == hs;
      match e {
        case Command(items, h) => IssueKeepsStep(s, hs, stream, replies, Encode(CommandValue(items)), h);
        case Written(ok) =>
          if s.queue != [] {
            WriteKeepsStep(s, hs, stream, replies, ok);
          }
        case Received(ok, segment) =>
          if !ReadFailed(events) {
            ReceiveKeepsStep(s, hs, stream, segment, replies, Min(|hs|, |replies|));
          } else if s.reading {
            FailKeepsStep(s, hs, stream, replies);
          }
      }
    }
  }

  lemma NoneFailed(events: seq<Event>)
    requires events == []
    ensures !ReadFailed(events)
  {
  }

  /** End to end: in every run against an honest server the handlers called are exactly those of the replies that
      have arrived whole before any failure to read, each with its own reply, in issue order, however the bytes
      were cut; no message is unexpected, and reading goes on until a read fails. */
  lemma PipelineDelivers(events: seq<Event>, replies: seq<Reply>)
    requires AllWellFormed(replies) && Honest(events, replies)
    ensures var s, hs := After(events), Handlers(events);
            var k := Complete(replies, |Stream(events)|);
            && k <= |hs| && |s.calls| == k
            && (forall i :: 0 <= i < k ==> s.calls[i] == Call(hs[i], Meaning(replies[i])))
            && s.handlers == hs[k..]
            && UnexpectedMessage !in s.faults && ParserFault !in s.faults
            && (s.reading <==> !ReadFailed(events))
    ensures Stream(events) == RenderAll(replies) ==> |After(events).calls| == |replies|
  {
    hide Feed, Meanings, RenderAll, AllWellFormed, Complete, After, Honest, Stream, Handlers, Meaning;
    HonestRunsInStep(events, replies);
    CompleteAll(replies);
    forall i | 0 <= i < |replies|
      ensures Meanings(replies)[i] == Meaning(replies[i])
    {
      MeaningsAt(replies, i);
    }
  }

  lemma {:induction false} MeaningsAt(rs: seq<Reply>, i: nat)
    requires i < |rs|
    ensures Meanings(rs)[i] == Meaning(rs[i])
    decreases i
  {
    if i > 0 {
      MeaningsAt(rs[1..], i - 1);
    }
  }

  // ----- Writing -----

  function Buffers(queue: seq<QueueItem>): seq<seq<byte>> {
    seq(|queue|, k requires 0 <= k < |queue| => queue[k].buff)
  }

  function EncodeEach(commands: seq<seq<seq<byte>>>): (bs: seq<seq<byte>>) {
    seq(|commands|, k requires 0 <= k < |commands| => Encode(CommandValue(commands[k])))
  }

  /** The write side of every run, honest or not: what has been sent, followed by what is queued, is what was
      issued, in order; a write is outstanding exactly when the queue is non-empty and no write has failed. */
  lemma {:induction false} SingleWriter(events: seq<Event>)
    ensures var s := After(events);
            && s.sent + Buffers(s.queue) == EncodeEach(Commands(events))
            && (s.writing <==> s.queue != [] && WriteFault !in s.faults)
            && (WriteFault in s.faults ==> s.queue != [])
    decreases |events|
  {
    if events != [] {
      var before, e := events[..|events| - 1], events[|events| - 1];
      SingleWriter(before);
      var s, t, cs := After(before), After(events), Commands(before);
      match e {
        case Command(items, h) =>
          assert Buffers(t.queue) == Buffers(s.queue) + [Encode(CommandValue(items))];
          assert EncodeEach(cs + [items]) == EncodeEach(cs) + [Encode(CommandValue(items))];
        case Written(ok) =>
          assert cs + [] == cs;
          if s.writing && ok {
            assert Buffers(s.queue) == [s.queue[0].buff] + Buffers(s.queue[1..]);
          }
        case Received(ok, segment) =>
          assert cs + [] == cs;
          if s.reading && ok && segment != [] {
            DispatchKeepsWriter(s, Feed(s.c, segment).values);
          }
      }
    }
  }

  lemma {:induction false} DispatchKeepsWriter(s: ClientState, vs: seq<RedisValue>)
    ensures var t := DispatchAll(s, vs);
            && t.queue == s.queue && t.sent == s.sent && t.writing == s.writing
            && (WriteFault in t.faults <==> WriteFault in s.faults)
    decreases |vs|
  {
    if vs != [] {
      DispatchKeepsWriter(Dispatch(s, vs[0]), vs[1..]);
    }
  }

  function Concat(bs: seq<seq<byte>>): seq<byte> {
    if bs == [] then [] else bs[0] + Concat(bs[1..])
  }

  lemma {:induction false} ConcatCommands(commands: seq<seq<seq<byte>>>)
    ensures Concat(EncodeEach(commands)) == EncodeCommands(commands)
  {
    if commands != [] {
      assert EncodeEach(commands)[1..] == EncodeEach(commands[1..]);
      ConcatCommands(commands[1..]);
    }
  }

  /** The wire carries the commands: a server decoding the bytes of the completed writes reads exactly the
      first commands issued, one per completed write. */
  lemma WireCarriesCommands(events: seq<Event>)
    requires forall k :: 0 <= k < |Commands(events)| ==> Sendable(Commands(events)[k])
    ensures var s, cs := After(events), Commands(events);
            && |s.sent| <= |cs|
            && Feed(INITIAL, Concat(s.sent)) == Feeding(CommandValues(cs[..|s.sent|]), INITIAL, false)
  {
    SingleWriter(events);
    var s, cs := After(events), Commands(events);
    var n := |s.sent|;
    assert |EncodeEach(cs)| == |cs|;
    assert s.sent == EncodeEach(cs)[..n] == EncodeEach(cs[..n]);
    ConcatCommands(cs[..n]);
    CommandsDecode(cs[..n]);
  }

  // ----- Every message is accounted for -----

  /** How many reply values event `e` completes in state `s`. */
  function Completed(s: ClientState, e: Event): nat {
    if e.Received? && s.reading && e.ok && e.segment != [] then |Feed(s.c, e.segment).values| else 0
  }

  /** How many handlers are waiting: commands add one each, values take one each while there are any. */
  function Waiting(events: seq<Event>): nat {
    if events == [] then 0
    else
      var before, e := events[..|events| - 1], events[|events| - 1];
      var n, k := Waiting(before), Completed(After(before), e);
      if e.Command? then n + 1 else if k <= n then n - k else 0
  }

  /** How many values have come with no handler waiting. */
  function Unasked(events: seq<Event>): nat {
    if events == [] then 0
    else
      var before, e := events[..|events| - 1], events[|events| - 1];
      var n, k := Waiting(before), Completed(After(before), e);
      Unasked(before) + if k <= n then 0 else k - n
  }

  function Values(events: seq<Event>): nat {
    if events == [] then 0
    else Values(events[..|events| - 1]) + Completed(After(events[..|events| - 1]), events[|events| - 1])
  }

  /** How many messages have been reported as unexpected. */
  function Reported(faults: seq<Fault>): nat {
    if faults == [] then 0
    else Reported(faults[..|faults| - 1]) + if faults[|faults| - 1] == UnexpectedMessage then 1 else 0
  }

  lemma ReportedSnoc(faults: seq<Fault>, f: Fault)
    ensures Reported(faults + [f]) == Reported(faults) + if f == UnexpectedMessage then 1 else 0
  {
    assert (faults + [f])[..|faults|] == faults;
  }

  lemma {:induction false} DispatchAccounts(s: ClientState, vs: seq<RedisValue>)
    ensures var t, n := DispatchAll(s, vs), |s.handlers|;
      && |t.handlers| == (if |vs| <= n then n - |vs| else 0)
      && |t.calls| == |s.calls| + (if |vs| <= n then |vs| else n)
      && Reported(t.faults) == Reported(s.faults) + (if |vs| <= n then 0 else |vs| - n)
    decreases |vs|
  {
    if vs != [] {
      DispatchAccounts(Dispatch(s, vs[0]), vs[1..]);
      ReportedSnoc(s.faults, UnexpectedMessage);
    }
  }

  lemma StepAccounts(s: ClientState, e: Event)
    ensures var t, n, k := Occur(s, e), |s.handlers|, Completed(s, e);
      && |t.handlers| == (if e.Command? then n + 1 else if k <= n then n - k else 0)
      && |t.calls| == |s.calls| + (if k <= n then k else n)
      && Reported(t.faults) == Reported(s.faults) + (if k <= n then 0 else k - n)
  {
    hide Encode, Feed, DispatchAll, Reported;
    match e {
      case Command(_, _) =>
      case Written(ok) => ReportedSnoc(s.faults, WriteFault);
      case Received(ok, segment) =>
        if Completed(s, e) > 0 || (s.reading && ok && segment != []) {
          var f := Feed(s.c, segment);
          DispatchAccounts(s, f.values);
          ReportedSnoc(DispatchAll(s, f.values).faults, ParserFault);
        } else {
          ReportedSnoc(s.faults, ReadFault);
        }
    }
  }

  /** In every run, whatever the server sends: the handlers waiting and the messages reported as unexpected are what
      counting commands and values gives, and every value received is either a handler's call or reported. */
  lemma {:induction false} MessagesAccounted(events: seq<Event>)
    ensures var s := After(events);
      && |s.handlers| == Waiting(events) && Reported(s.faults) == Unasked(events)
      && |s.calls| + Reported(s.faults) == Values(events)
      && |s.calls| + |s.handlers| == |Handlers(events)|
    decreases |events|
  {
    hide Occur, Reported, Completed;
    if events == [] {
      assert Reported([]) == 0 by {
        NothingReported();
      }
    } else {
      var before, e := events[..|events| - 1], events[|events| - 1];
      MessagesAccounted(before);
      StepAccounts(After(before), e);
      CommandsBringNoValues(After(before), e);
    }
  }

  lemma NothingReported()
    ensures Reported([]) == 0
  {
  }

  lemma CommandsBringNoValues(s: ClientState, e: Event)
    ensures e.Command? ==> Completed(s, e) == 0
  {
  }

  /** How many writes have completed well. */
  function WritesDone(events: seq<Event>): nat {
    if events == [] then 0
    else
      var before, e := events[..|events| - 1], events[|events| - 1];
      WritesDone(before) + if e == Written(true) && After(before).writing then 1 else 0
  }

  /** A write has failed. */
  predicate WriteFailed(events: seq<Event>) {
    events != [] &&
    var before, e := events[..|events| - 1], events[|events| - 1];
    WriteFailed(before) || (e == Written(false) && After(before).writing)
  }

  lemma StepWrites(s: ClientState, e: Event)
    requires s.writing ==> s.queue != []
    ensures |Occur(s, e).sent| == |s.sent| + if e == Written(true) && s.writing then 1 else 0
    ensures WriteFault in Occur(s, e).faults <==> WriteFault in s.faults || (e == Written(false) && s.writing)
  {
    hide Encode, Feed, DispatchAll;
    if e.Received? && s.reading && e.ok && e.segment != [] {
      DispatchKeepsWriter(s, Feed(s.c, e.segment).values);
    }
  }

  /** One buffer is sent per write that completes well, and writing is over exactly when one has failed. */
  lemma {:induction false} WritesExactly(events: seq<Event>)
    ensures var s := After(events);
      && |s.sent| == WritesDone(events) && (WriteFault in s.faults <==> WriteFailed(events))
      && (s.writing <==> s.queue != [] && !WriteFailed(events))
    decreases |events|
  {
    hide Occur;
    SingleWriter(events);
    if events != [] {
      var before := events[..|events| - 1];
      SingleWriter(before);
      WritesExactly(before);
      StepWrites(After(before), events[|events| - 1]);
    }
  }

  /** Reading has ended exactly if a failure to read or to parse has been reported. */
  lemma {:induction false} ReadingExactly(events: seq<Event>)
    ensures var s := After(events); s.reading <==> ReadFault !in s.faults && ParserFault !in s.faults
    decreases |events|
  {
    if events != [] {
      var before, e := events[..|events| - 1], events[|events| - 1];
      ReadingExactly(before);
      var s := After(before);
      if e.Received? && s.reading && e.ok && e.segment != [] {
        DispatchReportsNoFailure(s, Feed(s.c, e.segment).values);
      }
      hide Feed, DispatchAll, Encode;
    }
  }

  lemma {:induction false} DispatchReportsNoFailure(s: ClientState, vs: seq<RedisValue>)
    ensures var t := DispatchAll(s, vs);
      && t.reading == s.reading
      && (ReadFault in t.faults <==> ReadFault in s.faults) && (ParserFault in t.faults <==> ParserFault in s.faults)
    decreases |vs|
  {
    if vs != [] {
      DispatchReportsNoFailure(Dispatch(s, vs[0]), vs[1..]);
    }
  }

  // ----- The client itself -----

  /** What a client object holds is what the theorems say of its history: the calls it has made and the handlers
      it still has, the buffers it has sent and still queues, and that it is writing. */
  lemma ClientDelivers(client: RedisClient, replies: seq<Reply>)
    requires client.Lives() && AllWellFormed(replies) && Honest(client.history, replies)
    ensures var hs := Handlers(client.history); var k := Complete(replies, |Stream(client.history)|);
      && k <= |hs| && |client.calls| == k && client.handlers == hs[k..]
      && (forall i :: 0 <= i < k ==> client.calls[i] == Call(hs[i], Meaning(replies[i])))
      && (client.reading <==> !ReadFailed(client.history))
    ensures client.sent + Buffers(client.queue) == EncodeEach(Commands(client.history))
    ensures client.writing <==> client.queue != [] && WriteFault !in client.faults
  {
    hide After, Honest, Stream, Handlers, Complete, Commands, AllWellFormed;
    PipelineDelivers(client.history, replies);
    SingleWriter(client.history);
  }
}
