/** A byte-at-a-time pushdown machine for RESP2 replies.

    It has no buffers to copy, no recursion and no suspended call: one octet moves the token scanner, and
    a finished value is delivered to the innermost unfinished array.  `RedisParser` is proved against it. */
module RespMachine {
  import opened Bytes
  import opened Decimal

  /** `RedisValue`: only byte strings are ever built with the error flag set. */
  datatype RedisValue =
    | Null
    | Int(i: int)
    | Bytes(data: seq<byte>, error: bool)
    | Array(items: seq<RedisValue>)
  {
    /** `toArray`: a value that is not an array converts to the empty one. */
    function ToArray(): seq<RedisValue> {
      if Array? then items else []
    }
  }

  /** The token scanner: each state carries exactly the data that later bytes can observe. */
  datatype Scanner =
    | Start
    | String(buf: seq<byte>)
    | StringLF(buf: seq<byte>)
    | ErrorString(buf: seq<byte>)
    | ErrorLF(buf: seq<byte>)
    | Integer(buf: seq<byte>)
    | IntegerLF(buf: seq<byte>)
    | BulkSize(buf: seq<byte>)
    | BulkSizeLF(buf: seq<byte>)
    | Bulk(buf: seq<byte>, need: int)
    | BulkCR(buf: seq<byte>)
    | BulkLF(buf: seq<byte>)
    | ArraySize(buf: seq<byte>)
    | ArraySizeLF(buf: seq<byte>)

  datatype ScanResult =
    | Next(sc: Scanner)
    | Value(v: RedisValue)
    | Header(count: int)
    | Reject

  function ScanStart(c: byte): ScanResult {
    match c
    case 43 => Next(String([]))
    case 45 => Next(ErrorString([]))
    case 58 => Next(Integer([]))
    case 36 => Next(BulkSize([]))
    case 42 => Next(ArraySize([]))
    case _ => Reject
  }

  /** A text line collects printable octets up to the carriage return. */
  function ScanText(c: byte, more: Scanner, end: Scanner): ScanResult {
    if c == CR then Next(end) else if IsText(c) then Next(more) else Reject
  }

  /** A numeric line is like a text line, but may not be empty. */
  function ScanNumeric(c: byte, buf: seq<byte>, more: Scanner, end: Scanner): ScanResult {
    if c == CR then (if buf == [] then Reject else Next(end)) else if IsNumeric(c) then Next(more) else Reject
  }

  function ScanBulkSize(size: int): ScanResult {
    if size == -1 then Value(Null)
    else if size < 0 then Reject
    else if size == 0 then Next(BulkCR([]))
    else Next(Bulk([], size))
  }

  function ScanArraySize(size: int): ScanResult {
    if size == -1 || size == 0 then Value(Array([]))
    else if size < 0 then Reject
    else Header(size)
  }

  function Scan(sc: Scanner, c: byte): ScanResult {
    match sc
    case Start => ScanStart(c)
    case String(b) => ScanText(c, String(b + [c]), StringLF(b))
    case StringLF(b) => if c == LF then Value(Bytes(b, false)) else Reject
    case ErrorString(b) => ScanText(c, ErrorString(b + [c]), ErrorLF(b))
    case ErrorLF(b) => if c == LF then Value(Bytes(b, true)) else Reject
    case Integer(b) => ScanNumeric(c, b, Integer(b + [c]), IntegerLF(b))
    case IntegerLF(b) => if c == LF then Value(Int(StrToL(b))) else Reject
    case BulkSize(b) => ScanNumeric(c, b, BulkSize(b + [c]), BulkSizeLF(b))
    case BulkSizeLF(b) => if c == LF then ScanBulkSize(StrToL(b)) else Reject
    case Bulk(b, need) => if need > 1 then Next(Bulk(b + [c], need - 1)) else Next(BulkCR(b + [c]))
    case BulkCR(b) => if c == CR then Next(BulkLF(b)) else Reject
    case BulkLF(b) => if c == LF then Value(Bytes(b, false)) else Reject
    case ArraySize(b) => ScanNumeric(c, b, ArraySize(b + [c]), ArraySizeLF(b))
    case ArraySizeLF(b) => if c == LF then ScanArraySize(StrToL(b)) else Reject
  }

  /** An unfinished array: how many elements are still to come and those already built. */
  datatype Frame = Frame(left: int, items: seq<RedisValue>)

  /** Machine state; `frames[0]` is the outermost unfinished array. */
  datatype Config = Config(sc: Scanner, frames: seq<Frame>)

  const INITIAL := Config(Start, [])

  predicate Valid(c: Config) {
    && (c.sc.Bulk? ==> c.sc.need > 0)
    && forall k :: 0 <= k < |c.frames| ==> c.frames[k].left > 0
  }

  datatype StepResult = Go(c: Config) | Finish(v: RedisValue) | Fail

  /** Hand a finished value to the innermost unfinished array; filling that array finishes it in turn. */
  function Deliver(frames: seq<Frame>, v: RedisValue): StepResult
    decreases |frames|
  {
    if frames == [] then Finish(v)
    else
      var f := frames[|frames| - 1];
      var outer := frames[..|frames| - 1];
      if f.left > 1 then Go(Config(Start, outer + [Frame(f.left - 1, f.items + [v])]))
      else Deliver(outer, Array(f.items + [v]))
  }

  function Step(c: Config, b: byte): StepResult {
    match Scan(c.sc, b)
    case Next(sc) => Go(Config(sc, c.frames))
    case Value(v) => Deliver(c.frames, v)
    case Header(n) => Go(Config(Start, c.frames + [Frame(n, [])]))
    case Reject => Fail
  }

  /** What a run over a segment ends in: wanting more, a value after `n` bytes, or a rejected `n`-th byte. */
  datatype Outcome = More(c: Config) | Done(v: RedisValue, n: nat) | Bad(n: nat) {
    function Shift(k: nat): Outcome {
      match this
      case More(_) => this
      case Done(v, n) => Done(v, n + k)
      case Bad(n) => Bad(n + k)
    }
  }

  function Run(c: Config, s: seq<byte>): (o: Outcome)
    ensures o.Done? ==> 1 <= o.n <= |s|
    ensures o.Bad? ==> 1 <= o.n <= |s|
    decreases |s|
  {
    if s == [] then More(c)
    else
      match Step(c, s[0])
      case Go(c') => Run(c', s[1..]).Shift(1)
      case Finish(v) => Done(v, 1)
      case Fail => Bad(1)
  }

  lemma RunNothing(c: Config, s: seq<byte>)
    requires s == []
    ensures Run(c, s) == More(c)
  {
  }

  /** One byte outside any array. */
  lemma RunScan(sc: Scanner, s: seq<byte>)
    requires s != []
    ensures Run(Config(sc, []), s) ==
            match Scan(sc, s[0])
            case Next(sc') => Run(Config(sc', []), s[1..]).Shift(1)
            case Value(v) => Done(v, 1)
            case Header(n) => Run(Config(Start, [Frame(n, [])]), s[1..]).Shift(1)
            case Reject => Bad(1)
  {
    if Scan(sc, s[0]).Header? {
      var f := Frame(Scan(sc, s[0]).count, []);
      assert [] + [f] == [f];
    }
  }

  lemma {:induction false} DeliverKeepsValid(frames: seq<Frame>, v: RedisValue)
    requires Valid(Config(Start, frames))
    ensures Deliver(frames, v).Go? ==> Valid(Deliver(frames, v).c)
    decreases |frames|
  {
    if frames != [] && frames[|frames| - 1].left <= 1 {
      DeliverKeepsValid(frames[..|frames| - 1], Array(frames[|frames| - 1].items + [v]));
    }
  }

  /** Every state the machine can reach has positive remaining counts. */
  lemma {:induction false} RunKeepsValid(c: Config, s: seq<byte>)
    requires Valid(c)
    ensures Run(c, s).More? ==> Valid(Run(c, s).c)
    decreases |s|
  {
    if s != [] {
      if Scan(c.sc, s[0]).Value? {
        DeliverKeepsValid(c.frames, Scan(c.sc, s[0]).v);
      }
      if Step(c, s[0]).Go? {
        RunKeepsValid(Step(c, s[0]).c, s[1..]);
      }
    }
  }

  /** What a run that ended in `o` over `a` becomes when `b` follows. */
  function Continue(o: Outcome, a: seq<byte>, b: seq<byte>): Outcome {
    match o
    case More(c) => Run(c, b).Shift(|a|)
    case Done(_, _) => o
    case Bad(_) => o
  }

  /** Segmentation independence: cutting the input anywhere changes neither the value, nor where it ends,
      nor which byte is rejected. */
  lemma {:induction false} RunAppend(c: Config, a: seq<byte>, b: seq<byte>)
    ensures Run(c, a + b) == Continue(Run(c, a), a, b)
    decreases |a|
  {
    if a == [] {
      assert a + b == b;
      assert Run(c, b).Shift(0) == Run(c, b);
    } else {
      assert (a + b)[1..] == a[1..] + b;
      if Step(c, a[0]).Go? {
        RunAppend(Step(c, a[0]).c, a[1..], b);
      }
    }
  }

  lemma {:induction false} DeliverNest(f: Frame, gs: seq<Frame>, v: RedisValue)
    ensures Deliver([f] + gs, v) ==
            match Deliver(gs, v)
            case Go(c) => Go(Config(c.sc, [f] + c.frames))
            case Finish(w) => Deliver([f], w)
            case Fail => Fail
    decreases |gs|
  {
    var all := [f] + gs;
    if gs == [] {
      assert all == [f];
    } else {
      var g := gs[|gs| - 1];
      var outer := gs[..|gs| - 1];
      assert all[|all| - 1] == g && all[..|all| - 1] == [f] + outer;
      if g.left > 1 {
        var h := Frame(g.left - 1, g.items + [v]);
        assert ([f] + outer) + [h] == [f] + (outer + [h]);
      } else {
        DeliverNest(f, outer, Array(g.items + [v]));
      }
    }
  }

  /** How the outcome of the inner frames determines the outcome with one more frame around them. */
  function Enclose(f: Frame, o: Outcome, s: seq<byte>): Outcome
    requires o.Done? ==> o.n <= |s|
  {
    match o
    case More(c) => More(Config(c.sc, [f] + c.frames))
    case Bad(n) => Bad(n)
    case Done(v, n) => Resume(Start, f.left - 1, f.items + [v], s[n..]).Shift(n)
  }

  /** Carry on with a single unfinished array that still lacks `left` elements. */
  function Resume(sc: Scanner, left: int, items: seq<RedisValue>, s: seq<byte>): Outcome {
    if left <= 0 then Done(Array(items), 0) else Run(Config(sc, [Frame(left, items)]), s)
  }

  lemma StepNest(f: Frame, sc: Scanner, gs: seq<Frame>, b: byte)
    ensures Step(Config(sc, [f] + gs), b) ==
            match Step(Config(sc, gs), b)
            case Go(c) => Go(Config(c.sc, [f] + c.frames))
            case Finish(w) => Deliver([f], w)
            case Fail => Fail
  {
    match Scan(sc, b) {
      case Next(_) =>
      case Reject =>
      case Header(n) => assert ([f] + gs) + [Frame(n, [])] == [f] + (gs + [Frame(n, [])]);
      case Value(v) => DeliverNest(f, gs, v);
    }
  }

  lemma DeliverToOne(f: Frame, w: RedisValue)
    ensures Deliver([f], w) == if f.left > 1 then Go(Config(Start, [Frame(f.left - 1, f.items + [w])]))
                               else Finish(Array(f.items + [w]))
  {
    var g := Frame(f.left - 1, f.items + [w]);
    assert [f][..0] == [] && [] + [g] == [g];
  }

  /** A suspended outer array does not disturb what happens inside it: run the inner part, then resume. */
  lemma {:induction false} RunNest(f: Frame, sc: Scanner, gs: seq<Frame>, s: seq<byte>)
    ensures Run(Config(sc, [f] + gs), s) == Enclose(f, Run(Config(sc, gs), s), s)
    decreases |s|
  {
    if s != [] {
      StepNest(f, sc, gs, s[0]);
      match Step(Config(sc, gs), s[0]) {
        case Go(c) =>
          RunNest(f, c.sc, c.frames, s[1..]);
          EncloseShift(f, Run(c, s[1..]), s);
        case Finish(w) => DeliverToOne(f, w);
        case Fail =>
      }
    }
  }

  lemma ResumeAlone(sc: Scanner, left: int, items: seq<RedisValue>, s: seq<byte>)
    requires left > 0
    ensures Resume(sc, left, items, s) == Run(Config(sc, [Frame(left, items)]), s)
  {
    hide Run;
  }

  /** One element of an array: parse it on its own, then carry on with the rest of the array. */
  lemma ResumeElement(sc: Scanner, left: int, items: seq<RedisValue>, s: seq<byte>)
    requires left > 0
    ensures Resume(sc, left, items, s) == Enclose(Frame(left, items), Run(Config(sc, []), s), s)
  {
    assert [Frame(left, items)] + [] == [Frame(left, items)];
    RunNest(Frame(left, items), sc, [], s);
  }

  /** The three ways in which a run inside a suspended outer array can end, seen from outside. */
  lemma RunInside(f: Frame, sc: Scanner, gs: seq<Frame>, s: seq<byte>)
    ensures var o, whole := Run(Config(sc, gs), s), Run(Config(sc, [f] + gs), s);
      && (o.More? ==> whole == More(Config(o.c.sc, [f] + o.c.frames)))
      && (o.Bad? ==> whole == o)
      && (o.Done? ==> whole == Resume(Start, f.left - 1, f.items + [o.v], s[o.n..]).Shift(o.n))
  {
    hide Run, Resume;
    RunNest(f, sc, gs, s);
  }

  /** Everything inside array `k` of `frames` runs into an error. */
  ghost predicate InsideFails(sc: Scanner, frames: seq<Frame>, k: nat, s: seq<byte>) {
    k + 1 < |frames| && Run(Config(sc, frames[k + 1..]), s).Bad?
  }

  /** What is left suspended of `frames` after an error: exactly the arrays inside which everything failed, as
      opposed to the one that was being filled and the ones completed before. */
  ghost predicate Survives(left: seq<Frame>, sc: Scanner, frames: seq<Frame>, s: seq<byte>) {
    left <= frames && forall k :: 0 <= k < |frames| ==> (k < |left| <==> InsideFails(sc, frames, k, s))
  }

  lemma {:induction false} BadInside(sc: Scanner, frames: seq<Frame>, k: nat, s: seq<byte>)
    requires k <= |frames| && Run(Config(sc, frames[k..]), s).Bad?
    ensures Run(Config(sc, frames), s).Bad?
    decreases k
  {
    hide Run;
    if k == 0 {
      assert frames[0..] == frames;
    } else {
      assert frames[k - 1..] == [frames[k - 1]] + frames[k..];
      RunInside(frames[k - 1], sc, frames[k..], s);
      BadInside(sc, frames, k - 1, s);
    }
  }

  lemma InsideNested(f: Frame, sc: Scanner, gs: seq<Frame>, k: nat, s: seq<byte>)
    ensures k > 0 ==> (InsideFails(sc, [f] + gs, k, s) <==> InsideFails(sc, gs, k - 1, s))
    ensures InsideFails(sc, [f] + gs, 0, s) <==> gs != [] && Run(Config(sc, gs), s).Bad?
  {
    hide Run;
    assert ([f] + gs)[1..] == gs;
    if 0 < k < |gs| {
      assert ([f] + gs)[k + 1..] == gs[k..];
    }
  }

  /** An array survives when all that was inside it failed. */
  lemma SurvivesAround(f: Frame, left: seq<Frame>, sc: Scanner, gs: seq<Frame>, s: seq<byte>)
    requires gs != [] && Survives(left, sc, gs, s) && Run(Config(sc, gs), s).Bad?
    ensures Survives([f] + left, sc, [f] + gs, s)
  {
    hide Run;
    forall k | 0 <= k < |[f] + gs|
      ensures k < |[f] + left| <==> InsideFails(sc, [f] + gs, k, s)
    {
      InsideNested(f, sc, gs, k, s);
      hide InsideFails;
    }
  }

  /** Nothing survives an error in an array all of whose inner arrays were completed. */
  lemma NothingSurvives(f: Frame, sc: Scanner, gs: seq<Frame>, s: seq<byte>)
    requires gs == [] || !Run(Config(sc, gs), s).Bad?
    ensures Survives([], sc, [f] + gs, s)
  {
    hide Run;
    forall k | 0 <= k < |[f] + gs|
      ensures !InsideFails(sc, [f] + gs, k, s)
    {
      InsideNested(f, sc, gs, k, s);
      if k > 0 && InsideFails(sc, gs, k - 1, s) {
        BadInside(sc, gs, k, s);
      }
    }
  }

  lemma EncloseShift(f: Frame, o: Outcome, s: seq<byte>)
    requires s != []
    requires o.Done? ==> o.n <= |s[1..]|
    ensures Enclose(f, o.Shift(1), s) == Enclose(f, o, s[1..]).Shift(1)
  {
    if o.Done? {
      assert s[1..][o.n..] == s[o.n + 1..];
    }
  }

  /** The block copy: a bulk body is consumed as a whole. */
  lemma {:induction false} RunBulk(buf: seq<byte>, need: int, frames: seq<Frame>, s: seq<byte>)
    requires need > 0
    ensures |s| < need ==> Run(Config(Bulk(buf, need), frames), s) == More(Config(Bulk(buf + s, need - |s|), frames))
    ensures |s| >= need ==>
              Run(Config(Bulk(buf, need), frames), s)
              == Run(Config(BulkCR(buf + s[..need]), frames), s[need..]).Shift(need)
    decreases |s|
  {
    if s == [] {
      assert buf + s == buf;
    } else if need == 1 {
      assert buf + s[..1] == buf + [s[0]];
    } else {
      RunBulk(buf + [s[0]], need - 1, frames, s[1..]);
      assert buf + [s[0]] + s[1..] == buf + s;
      if |s| >= need {
        assert buf + [s[0]] + s[1..][..need - 1] == buf + s[..need];
        assert s[1..][need - 1..] == s[need..];
      }
    }
  }
}
