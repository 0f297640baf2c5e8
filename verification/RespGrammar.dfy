/** What a reply looks like on the wire, independently of any parser: concrete syntax trees, the bytes they
    stand for and the values they denote.  The byte machine accepts exactly this language. */
module RespGrammar {
  import opened Bytes
  import opened Decimal
  import opened RespMachine

  /** One reply as it was spelled: numerals keep their spelling, because several spellings denote a number. */
  datatype Reply =
    | Simple(text: seq<byte>)
    | Failure(text: seq<byte>)
    | Number(numeral: seq<byte>)
    | Nil(numeral: seq<byte>)
    | Blob(numeral: seq<byte>, body: seq<byte>)
    | List(numeral: seq<byte>, elems: seq<Reply>)

  ghost predicate Numeral(s: seq<byte>) {
    s != [] && AllNumeric(s)
  }

  ghost predicate WellFormed(r: Reply) {
    match r
    case Simple(t) => AllText(t)
    case Failure(t) => AllText(t)
    case Number(d) => Numeral(d)
    case Nil(d) => Numeral(d) && StrToL(d) == -1
    case Blob(d, body) => Numeral(d) && StrToL(d) == |body|
    case List(d, elems) => Numeral(d) && CountFits(d, |elems|) && AllWellFormed(elems)
  }

  /** An empty array may also be announced by the size -1. */
  ghost predicate CountFits(d: seq<byte>, n: nat) {
    StrToL(d) == n || (StrToL(d) == -1 && n == 0)
  }

  ghost predicate AllWellFormed(rs: seq<Reply>) {
    forall k :: 0 <= k < |rs| ==> WellFormed(rs[k])
  }

  function Render(r: Reply): (s: seq<byte>)
    ensures s != []
    decreases r, 0
  {
    match r
    case Simple(t) => [43] + t + CRLF
    case Failure(t) => [45] + t + CRLF
    case Number(d) => [58] + d + CRLF
    case Nil(d) => [36] + d + CRLF
    case Blob(d, body) => [36] + d + CRLF + body + CRLF
    case List(d, elems) => [42] + d + CRLF + RenderAll(elems)
  }

  function RenderAll(rs: seq<Reply>): seq<byte>
    decreases rs, 1
  {
    if rs == [] then [] else Render(rs[0]) + RenderAll(rs[1..])
  }

  function Meaning(r: Reply): RedisValue
    decreases r, 0
  {
    match r
    case Simple(t) => Bytes(t, false)
    case Failure(t) => Bytes(t, true)
    case Number(d) => Int(StrToL(d))
    case Nil(_) => Null
    case Blob(_, body) => Bytes(body, false)
    case List(_, elems) => Array(Meanings(elems))
  }

  function Meanings(rs: seq<Reply>): (vs: seq<RedisValue>)
    ensures |vs| == |rs|
    decreases rs, 1
  {
    if rs == [] then [] else [Meaning(rs[0])] + Meanings(rs[1..])
  }

  lemma {:induction false} RenderAllSnoc(rs: seq<Reply>, r: Reply)
    ensures RenderAll(rs + [r]) == RenderAll(rs) + Render(r)
    ensures Meanings(rs + [r]) == Meanings(rs) + [Meaning(r)]
  {
    if rs == [] {
      assert [r][1..] == [];
      assert RenderAll([r]) == Render(r) + RenderAll([]);
    } else {
      assert (rs + [r])[1..] == rs[1..] + [r];
      RenderAllSnoc(rs[1..], r);
    }
  }

  // ----- Completeness: every reply is accepted, with its own value, and nothing beyond it is read -----

  /** What follows once a finished value has been handed to the enclosing arrays. */
  function Afterwards(frames: seq<Frame>, v: RedisValue, rest: seq<byte>): Outcome {
    Follow(Deliver(frames, v), rest)
  }

  function Follow(st: StepResult, rest: seq<byte>): Outcome {
    match st
    case Finish(v) => Done(v, 0)
    case Go(c) => Run(c, rest)
    case Fail => Bad(0)
  }

  /** A text line that started in scanner state `more([])` is collected up to its line feed. */
  lemma {:induction false} RunText(error: bool, buf: seq<byte>, t: seq<byte>, frames: seq<Frame>, rest: seq<byte>)
    requires AllText(t)
    ensures Run(Config(if error then ErrorString(buf) else String(buf), frames), t + CRLF + rest)
         == Afterwards(frames, Bytes(buf + t, error), rest).Shift(|t| + 2)
    decreases |t|
  {
    var sc := if error then ErrorString(buf) else String(buf);
    var s := t + CRLF + rest;
    if t == [] {
      assert buf + t == buf;
      assert s[0] == CR && s[1..][0] == LF && s[1..][1..] == rest;
      var sc' := if error then ErrorLF(buf) else StringLF(buf);
      assert Step(Config(sc, frames), CR) == Go(Config(sc', frames));
      assert Step(Config(sc', frames), LF) == Deliver(frames, Bytes(buf, error));
    } else {
      assert s[1..] == t[1..] + CRLF + rest;
      assert buf + [t[0]] + t[1..] == buf + t;
      RunText(error, buf + [t[0]], t[1..], frames, rest);
    }
  }

  datatype NumericLine = Integers | BulkSizes | ArraySizes {
    function Marker(): byte {
      match this
      case Integers => 58
      case BulkSizes => 36
      case ArraySizes => 42
    }

    function Collecting(buf: seq<byte>): Scanner {
      match this
      case Integers => Integer(buf)
      case BulkSizes => BulkSize(buf)
      case ArraySizes => ArraySize(buf)
    }

    function Collected(buf: seq<byte>): Scanner {
      match this
      case Integers => IntegerLF(buf)
      case BulkSizes => BulkSizeLF(buf)
      case ArraySizes => ArraySizeLF(buf)
    }
  }

  lemma {:induction false} RunNumeral(
      line: NumericLine, buf: seq<byte>, d: seq<byte>, frames: seq<Frame>, rest: seq<byte>)
    requires AllNumeric(d) && buf + d != []
    ensures Run(Config(line.Collecting(buf), frames), d + [CR] + rest)
         == Run(Config(line.Collected(buf + d), frames), rest).Shift(|d| + 1)
    decreases |d|
  {
    var s := d + [CR] + rest;
    if d == [] {
      assert buf + d == buf;
      assert s[0] == CR && s[1..] == rest;
    } else {
      assert s[1..] == d[1..] + [CR] + rest;
      assert buf + [d[0]] + d[1..] == buf + d;
      RunNumeral(line, buf + [d[0]], d[1..], frames, rest);
    }
  }

  lemma RunByte(c: Config, b: byte, rest: seq<byte>)
    ensures Run(c, [b] + rest) == Follow(Step(c, b), rest).Shift(1)
  {
    assert ([b] + rest)[1..] == rest;
  }

  /** A whole header line (marker, numeral, carriage return, line feed) ends with the line feed's step. */
  lemma RunHeader(line: NumericLine, d: seq<byte>, frames: seq<Frame>, rest: seq<byte>)
    requires Numeral(d)
    ensures Run(Config(Start, frames), [line.Marker()] + d + CRLF + rest)
         == Follow(Step(Config(line.Collected(d), frames), LF), rest).Shift(|d| + 3)
  {
    hide Run;
    var tail := d + [CR] + ([LF] + rest);
    assert [line.Marker()] + d + CRLF + rest == [line.Marker()] + tail;
    RunByte(Config(Start, frames), line.Marker(), tail);
    assert Step(Config(Start, frames), line.Marker()) == Go(Config(line.Collecting([]), frames));
    RunNumeral(line, [], d, frames, [LF] + rest);
    assert [] + d == d;
    RunByte(Config(line.Collected(d), frames), LF, rest);
  }

  lemma RunBlobBody(body: seq<byte>, frames: seq<Frame>, rest: seq<byte>)
    ensures Run(Config(if body == [] then BulkCR([]) else Bulk([], |body|), frames), body + CRLF + rest)
         == Afterwards(frames, Bytes(body, false), rest).Shift(|body| + 2)
  {
    hide Run;
    var s := body + CRLF + rest;
    if body != [] {
      RunBulk([], |body|, frames, s);
      assert [] + s[..|body|] == body;
    }
    assert s[|body|..] == [CR] + ([LF] + rest);
    RunByte(Config(BulkCR(body), frames), CR, [LF] + rest);
    RunByte(Config(BulkLF(body), frames), LF, rest);
  }

  lemma RunBlob(d: seq<byte>, body: seq<byte>, frames: seq<Frame>, rest: seq<byte>)
    requires WellFormed(Blob(d, body))
    ensures Run(Config(Start, frames), Render(Blob(d, body)) + rest)
         == Afterwards(frames, Bytes(body, false), rest).Shift(|Render(Blob(d, body))|)
  {
    hide Run, Deliver;
    var tail := body + CRLF + rest;
    assert Render(Blob(d, body)) + rest == [36] + d + CRLF + tail;
    RunHeader(BulkSizes, d, frames, tail);
    RunBlobBody(body, frames, rest);
  }

  lemma RunTextLine(error: bool, t: seq<byte>, frames: seq<Frame>, rest: seq<byte>)
    requires AllText(t)
    ensures var marker := if error then 45 else 43;
      Run(Config(Start, frames), [marker] + t + CRLF + rest) == Afterwards(frames, Bytes(t, error), rest).Shift(|t| + 3)
  {
    hide Run, Deliver;
    var marker: byte := if error then 45 else 43;
    assert [marker] + t + CRLF + rest == [marker] + (t + CRLF + rest);
    RunByte(Config(Start, frames), marker, t + CRLF + rest);
    RunText(error, [], t, frames, rest);
    assert [] + t == t;
  }

  /** Completeness: whatever surrounds it and whatever follows, a well-formed reply is consumed exactly and
      its value handed on. */
  lemma {:induction false} RunReply(r: Reply, frames: seq<Frame>, rest: seq<byte>)
    requires WellFormed(r)
    ensures Run(Config(Start, frames), Render(r) + rest) == Afterwards(frames, Meaning(r), rest).Shift(|Render(r)|)
    decreases r, 1
  {
    hide Run, Deliver;
    match r {
      case Simple(t) => RunTextLine(false, t, frames, rest);
      case Failure(t) => RunTextLine(true, t, frames, rest);
      case Number(d) => RunHeader(Integers, d, frames, rest);
      case Nil(d) => RunHeader(BulkSizes, d, frames, rest);
      case Blob(d, body) => RunBlob(d, body, frames, rest);
      case List(d, elems) => RunList(d, elems, frames, rest);
    }
  }

  lemma {:induction false} RunList(d: seq<byte>, elems: seq<Reply>, frames: seq<Frame>, rest: seq<byte>)
    requires WellFormed(List(d, elems))
    ensures Run(Config(Start, frames), Render(List(d, elems)) + rest)
         == Afterwards(frames, Array(Meanings(elems)), rest).Shift(|Render(List(d, elems))|)
    decreases elems, 3
  {
    hide Run, Deliver;
    var tail := RenderAll(elems) + rest;
    assert Render(List(d, elems)) + rest == [42] + d + CRLF + tail;
    RunHeader(ArraySizes, d, frames, tail);
    if elems == [] {
      assert tail == rest;
    } else {
      RunElements(elems, frames, [], rest);
      assert [] + Meanings(elems) == Meanings(elems);
    }
  }

  lemma {:induction false} RunElements(rs: seq<Reply>, frames: seq<Frame>, items: seq<RedisValue>, rest: seq<byte>)
    requires AllWellFormed(rs) && rs != []
    ensures Run(Config(Start, frames + [Frame(|rs|, items)]), RenderAll(rs) + rest)
         == Afterwards(frames, Array(items + Meanings(rs)), rest).Shift(|RenderAll(rs)|)
    decreases rs, 2
  {
    hide Run;
    var f := Frame(|rs|, items);
    var tail := RenderAll(rs[1..]) + rest;
    var all := frames + [f];
    assert RenderAll(rs) + rest == Render(rs[0]) + tail;
    RunReply(rs[0], all, tail);
    assert all[|all| - 1] == f && all[..|all| - 1] == frames;
    if |rs| == 1 {
      assert RenderAll(rs[1..]) == [] && tail == rest;
      assert Meanings(rs) == [Meaning(rs[0])];
    } else {
      RunElements(rs[1..], frames, items + [Meaning(rs[0])], rest);
      assert items + [Meaning(rs[0])] + Meanings(rs[1..]) == items + Meanings(rs);
    }
  }

  /** Parsing a reply followed by anything completes at its last byte with its value. */
  lemma ReplyParses(r: Reply, rest: seq<byte>)
    requires WellFormed(r)
    ensures Run(INITIAL, Render(r) + rest) == Done(Meaning(r), |Render(r)|)
  {
    RunReply(r, [], rest);
  }

  /** No reply is a proper prefix of another, and equal bytes mean equal values. */
  lemma PrefixFree(r: Reply, q: Reply, x: seq<byte>, y: seq<byte>)
    requires WellFormed(r) && WellFormed(q)
    requires Render(r) + x == Render(q) + y
    ensures Render(r) == Render(q) && Meaning(r) == Meaning(q) && x == y
  {
    ReplyParses(r, x);
    ReplyParses(q, y);
    var s := Render(r) + x;
    assert Render(r) == s[..|Render(r)|] && Render(q) == s[..|Render(q)|];
    assert x == s[|Render(r)|..] && y == s[|Render(q)|..];
  }
}
