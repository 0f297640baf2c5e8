/** A stream of replies cut into segments: what the read loop of the client extracts from it. */
module RespStream {
  import opened Bytes
  import opened RespMachine
  import opened RespGrammar
  import opened RespEncoding

  /** The values completed so far, the machine state to go on from, and whether a byte was rejected. */
  datatype Feeding = Feeding(values: seq<RedisValue>, c: Config, failed: bool)

  function Feed(c: Config, s: seq<byte>): Feeding
    decreases |s|
  {
    match Run(c, s)
    case More(c') => Feeding([], c', false)
    case Bad(_) => Feeding([], INITIAL, true)
    case Done(v, n) =>
      var f := Feed(INITIAL, s[n..]);
      Feeding([v] + f.values, f.c, f.failed)
  }

  function Then(f: Feeding, b: seq<byte>): Feeding {
    if f.failed then f
    else
      var g := Feed(f.c, b);
      Feeding(f.values + g.values, g.c, g.failed)
  }

  /** Reading two segments one after the other is reading them as one. */
  lemma {:induction false} FeedAppend(c: Config, a: seq<byte>, b: seq<byte>)
    ensures Feed(c, a + b) == Then(Feed(c, a), b)
    decreases |a|
  {
    hide Run;
    RunAppend(c, a, b);
    match Run(c, a) {
      case Bad(_) =>
      case More(c') =>
        match Run(c', b) {
          case Done(v, n) => assert (a + b)[n + |a|..] == b[n..];
          case _ =>
        }
        assert [] + Feed(c', b).values == Feed(c', b).values;
      case Done(v, n) =>
        assert (a + b)[n..] == a[n..] + b;
        FeedAppend(INITIAL, a[n..], b);
        var f := Feed(INITIAL, a[n..]);
        if !f.failed {
          var g := Feed(f.c, b);
          assert [v] + (f.values + g.values) == ([v] + f.values) + g.values;
        }
    }
  }

  /** Whole replies in front of a segment yield their values, in order. */
  lemma {:induction false} FeedReplies(rs: seq<Reply>, rest: seq<byte>)
    requires AllWellFormed(rs)
    ensures var f := Feed(INITIAL, rest);
            Feed(INITIAL, RenderAll(rs) + rest) == Feeding(Meanings(rs) + f.values, f.c, f.failed)
    decreases |rs|
  {
    hide Run, Render, WellFormed, Meaning;
    var f := Feed(INITIAL, rest);
    if rs == [] {
      assert RenderAll(rs) + rest == rest;
      assert Meanings(rs) + f.values == f.values;
    } else {
      var tail := RenderAll(rs[1..]) + rest;
      assert RenderAll(rs) + rest == Render(rs[0]) + tail;
      ReplyParses(rs[0], tail);
      assert (Render(rs[0]) + tail)[|Render(rs[0])|..] == tail;
      FeedReplies(rs[1..], rest);
      assert [Meaning(rs[0])] + (Meanings(rs[1..]) + f.values) == Meanings(rs) + f.values;
    }
  }

  /** How many of the replies lie completely within the first `n` bytes of their rendering. */
  function Complete(rs: seq<Reply>, n: nat): (k: nat)
    ensures k <= |rs|
  {
    if rs == [] || |Render(rs[0])| > n then 0 else 1 + Complete(rs[1..], n - |Render(rs[0])|)
  }

  /** A stream cut off anywhere yields exactly the values of the replies that arrived whole. */
  lemma {:induction false} FeedPrefix(rs: seq<Reply>, s: seq<byte>)
    requires AllWellFormed(rs) && s <= RenderAll(rs)
    ensures Feed(INITIAL, s).values == Meanings(rs)[..Complete(rs, |s|)] && !Feed(INITIAL, s).failed
    decreases |rs|
  {
    if rs == [] {
    } else {
      var first := Render(rs[0]);
      if |first| > |s| {
        var x := first[|s|..];
        assert first == s + x == first + [];
        ReplyParses(rs[0], []);
        RunAppend(INITIAL, s, x);
      } else {
        var t := s[|first|..];
        assert s == first + t;
        ReplyParses(rs[0], t);
        assert t <= RenderAll(rs[1..]);
        FeedPrefix(rs[1..], t);
        assert [Meaning(rs[0])] + Meanings(rs[1..])[..Complete(rs[1..], |t|)] == Meanings(rs)[..Complete(rs, |s|)];
      }
    }
  }

  function EncodeCommands(commands: seq<seq<seq<byte>>>): seq<byte> {
    if commands == [] then [] else Encode(CommandValue(commands[0])) + EncodeCommands(commands[1..])
  }

  function CommandValues(commands: seq<seq<seq<byte>>>): seq<RedisValue> {
    if commands == [] then [] else [CommandValue(commands[0])] + CommandValues(commands[1..])
  }

  /** A pipeline of commands decodes to exactly those commands. */
  lemma {:induction false} CommandsDecode(commands: seq<seq<seq<byte>>>)
    requires forall k :: 0 <= k < |commands| ==> Sendable(commands[k])
    ensures Feed(INITIAL, EncodeCommands(commands)) == Feeding(CommandValues(commands), INITIAL, false)
    decreases |commands|
  {
    if commands != [] {
      CommandEncodable(commands[0]);
      RoundTrip(CommandValue(commands[0]), EncodeCommands(commands[1..]));
      CommandsDecode(commands[1..]);
      var first := Encode(CommandValue(commands[0]));
      assert EncodeCommands(commands)[|first|..] == EncodeCommands(commands[1..]);
    }
  }
}
