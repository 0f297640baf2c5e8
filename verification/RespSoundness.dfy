/** The other direction: whatever the machine accepts is a well-formed reply, and while it waits for more its
    whole state is explained by an unfinished syntax tree. */
module RespSoundness {
  import opened Bytes
  import opened Decimal
  import opened RespMachine
  import opened RespGrammar

  /** An array whose header and first elements have been read. */
  datatype OpenList = OpenList(numeral: seq<byte>, built: seq<Reply>)

  function RenderOpen(o: OpenList): seq<byte> {
    [42] + o.numeral + CRLF + RenderAll(o.built)
  }

  function RenderOpens(os: seq<OpenList>): seq<byte> {
    if os == [] then [] else RenderOpens(os[..|os| - 1]) + RenderOpen(os[|os| - 1])
  }

  /** Built elements plus remaining count make up the declared size, and something remains. */
  ghost predicate FrameExplained(f: Frame, o: OpenList) {
    && Numeral(o.numeral) && AllWellFormed(o.built)
    && f.items == Meanings(o.built)
    && f.left > 0 && f.left + |o.built| == StrToL(o.numeral)
  }

  ghost predicate FramesExplained(frames: seq<Frame>, os: seq<OpenList>) {
    |frames| == |os| && forall k :: 0 <= k < |os| ==> FrameExplained(frames[k], os[k])
  }

  /** `pre` is the part of the current token read so far; `num` spells the size of a bulk being read. */
  ghost predicate ScanExplained(sc: Scanner, pre: seq<byte>, num: seq<byte>) {
    match sc
    case Start => pre == []
    case String(b) => AllText(b) && pre == [43] + b
    case StringLF(b) => AllText(b) && pre == [43] + b + [CR]
    case ErrorString(b) => AllText(b) && pre == [45] + b
    case ErrorLF(b) => AllText(b) && pre == [45] + b + [CR]
    case Integer(b) => AllNumeric(b) && pre == [58] + b
    case IntegerLF(b) => Numeral(b) && pre == [58] + b + [CR]
    case BulkSize(b) => AllNumeric(b) && pre == [36] + b
    case BulkSizeLF(b) => Numeral(b) && pre == [36] + b + [CR]
    case Bulk(b, need) => Numeral(num) && need > 0 && StrToL(num) == |b| + need && pre == [36] + num + CRLF + b
    case BulkCR(b) => Numeral(num) && StrToL(num) == |b| && pre == [36] + num + CRLF + b
    case BulkLF(b) => Numeral(num) && StrToL(num) == |b| && pre == [36] + num + CRLF + b + [CR]
    case ArraySize(b) => AllNumeric(b) && pre == [42] + b
    case ArraySizeLF(b) => Numeral(b) && pre == [42] + b + [CR]
  }

  /** The bytes `h` read so far, taken apart along the machine state. */
  datatype Account = Account(os: seq<OpenList>, pre: seq<byte>, num: seq<byte>)

  ghost predicate Explains(c: Config, h: seq<byte>, a: Account) {
    FramesExplained(c.frames, a.os) && ScanExplained(c.sc, a.pre, a.num) && h == RenderOpens(a.os) + a.pre
  }

  /** One byte of a bulk string. */
  lemma BulkSound(sc: Scanner, pre: seq<byte>, num: seq<byte>, c: byte) returns (num': seq<byte>, r: Reply)
    requires ScanExplained(sc, pre, num) && (sc.BulkSizeLF? || sc.Bulk? || sc.BulkCR? || sc.BulkLF?)
    ensures !Scan(sc, c).Header?
    ensures Scan(sc, c).Next? ==> ScanExplained(Scan(sc, c).sc, pre + [c], num')
    ensures Scan(sc, c).Value? ==> WellFormed(r) && Render(r) == pre + [c] && Meaning(r) == Scan(sc, c).v
  {
    num', r := num, Simple([]);
    match sc {
      case BulkSizeLF(b) =>
        num', r := b, Nil(b);
        if c == LF {
          assert pre + [c] == [36] + b + CRLF + [];
        }
      case Bulk(b, need) => assert pre + [c] == [36] + num + CRLF + (b + [c]);
      case BulkCR(b) =>
      case BulkLF(b) =>
        r := Blob(num, b);
        if c == LF {
          assert pre + [c] == [36] + num + CRLF + b + CRLF;
        }
    }
  }

  /** One byte of a text line. */
  lemma TextSound(sc: Scanner, pre: seq<byte>, num: seq<byte>, c: byte) returns (r: Reply)
    requires ScanExplained(sc, pre, num) && (sc.String? || sc.ErrorString? || sc.StringLF? || sc.ErrorLF?)
    ensures !Scan(sc, c).Header?
    ensures Scan(sc, c).Next? ==> ScanExplained(Scan(sc, c).sc, pre + [c], num)
    ensures Scan(sc, c).Value? ==> WellFormed(r) && Render(r) == pre + [c] && Meaning(r) == Scan(sc, c).v
  {
    r := Simple([]);
    match sc {
      case String(b) => assert pre + [c] == [43] + (b + [c]);
      case ErrorString(b) => assert pre + [c] == [45] + (b + [c]);
      case StringLF(b) => r := Simple(b);
      case ErrorLF(b) => r := Failure(b);
    }
  }

  /** One byte of a numeral. */
  lemma NumeralSound(sc: Scanner, pre: seq<byte>, num: seq<byte>, c: byte)
    requires ScanExplained(sc, pre, num) && (sc.Integer? || sc.BulkSize? || sc.ArraySize?)
    ensures Scan(sc, c).Next? || Scan(sc, c).Reject?
    ensures Scan(sc, c).Next? ==> ScanExplained(Scan(sc, c).sc, pre + [c], num)
  {
    hide StrToL;
    assert pre + [c] == [pre[0]] + (sc.buf + [c]);
  }

  lemma ScanSound(sc: Scanner, pre: seq<byte>, num: seq<byte>, c: byte) returns (num': seq<byte>, r: Reply)
    requires ScanExplained(sc, pre, num)
    ensures Scan(sc, c).Next? ==> ScanExplained(Scan(sc, c).sc, pre + [c], num')
    ensures Scan(sc, c).Value? ==> WellFormed(r) && Render(r) == pre + [c] && Meaning(r) == Scan(sc, c).v
    ensures Scan(sc, c).Header? ==>
              && Numeral(num') && StrToL(num') == Scan(sc, c).count > 0
              && pre + [c] == [42] + num' + CRLF
  {
    num', r := num, Simple([]);
    if sc.BulkSizeLF? || sc.Bulk? || sc.BulkCR? || sc.BulkLF? {
      num', r := BulkSound(sc, pre, num, c);
    } else if sc.String? || sc.ErrorString? || sc.StringLF? || sc.ErrorLF? {
      r := TextSound(sc, pre, num, c);
    } else if sc.Integer? || sc.BulkSize? || sc.ArraySize? {
      NumeralSound(sc, pre, num, c);
    } else if sc.IntegerLF? {
      r := Number(sc.buf);
    } else if sc.ArraySizeLF? {
      num', r := sc.buf, List(sc.buf, []);
      assert c == LF ==> pre + [c] == [42] + sc.buf + CRLF + [];
    }
  }

  lemma RenderOpensSnoc(os: seq<OpenList>, o: OpenList)
    ensures RenderOpens(os + [o]) == RenderOpens(os) + RenderOpen(o)
  {
    assert (os + [o])[..|os|] == os;
  }

  /** One more element for the innermost array: it stays open, or it is complete. */
  lemma ExtendList(f: Frame, o: OpenList, r: Reply)
    requires FrameExplained(f, o) && WellFormed(r)
    ensures f.left > 0
    ensures var g := Frame(f.left - 1, f.items + [Meaning(r)]);
            f.left > 1 ==> FrameExplained(g, OpenList(o.numeral, o.built + [r]))
    ensures RenderOpen(OpenList(o.numeral, o.built + [r])) == RenderOpen(o) + Render(r)
    ensures var q := List(o.numeral, o.built + [r]);
            f.left == 1 ==> && WellFormed(q) && Meaning(q) == Array(f.items + [Meaning(r)])
                            && Render(q) == RenderOpen(o) + Render(r)
  {
    RenderAllSnoc(o.built, r);
  }

  lemma {:induction false} DeliverSound(frames: seq<Frame>, os: seq<OpenList>, r: Reply)
    returns (os': seq<OpenList>, q: Reply)
    requires FramesExplained(frames, os) && WellFormed(r)
    ensures var d := Deliver(frames, Meaning(r));
      && (d.Finish? ==> WellFormed(q) && Meaning(q) == d.v && Render(q) == RenderOpens(os) + Render(r))
      && (d.Go? ==> && d.c.sc == Start && FramesExplained(d.c.frames, os')
                    && RenderOpens(os') == RenderOpens(os) + Render(r))
    decreases |frames|
  {
    hide WellFormed, Render, Meaning, RenderOpen, FrameExplained;
    os', q := os, r;
    if frames == [] {
      assert RenderOpens(os) + Render(r) == Render(r);
    } else {
      var f, o := frames[|frames| - 1], os[|os| - 1];
      var opens, o' := os[..|os| - 1], OpenList(o.numeral, o.built + [r]);
      ExtendList(f, o, r);
      assert RenderOpens(os) == RenderOpens(opens) + RenderOpen(o);
      assert RenderOpens(os) + Render(r) == RenderOpens(opens) + RenderOpen(o');
      if f.left > 1 {
        os' := opens + [o'];
        RenderOpensSnoc(opens, o');
      } else {
        os', q := DeliverSound(frames[..|frames| - 1], opens, List(o.numeral, o.built + [r]));
      }
    }
  }

  lemma StepSound(c: Config, h: seq<byte>, a: Account, b: byte) returns (a': Account, q: Reply)
    requires Explains(c, h, a)
    ensures Step(c, b).Go? ==> Explains(Step(c, b).c, h + [b], a')
    ensures Step(c, b).Finish? ==> WellFormed(q) && Render(q) == h + [b] && Meaning(q) == Step(c, b).v
  {
    var num, r := ScanSound(c.sc, a.pre, a.num, b);
    assert h + [b] == RenderOpens(a.os) + (a.pre + [b]);
    a', q := Account(a.os, a.pre + [b], num), r;
    match Scan(c.sc, b) {
      case Next(_) =>
      case Reject =>
      case Header(n) =>
        var o := OpenList(num, []);
        RenderOpensSnoc(a.os, o);
        assert RenderOpen(o) == a.pre + [b];
        a' := Account(a.os + [o], [], num);
      case Value(v) =>
        var os;
        os, q := DeliverSound(c.frames, a.os, r);
        a' := Account(os, [], num);
    }
  }

  /** From an explained state: a completed run has read exactly a well-formed reply, and a run that wants
      more ends in an explained state again. */
  lemma {:induction false} RunSound(c: Config, h: seq<byte>, a: Account, s: seq<byte>) returns (a': Account, q: Reply)
    requires Explains(c, h, a)
    ensures var o := Run(c, s);
      && (o.Done? ==> WellFormed(q) && Render(q) == h + s[..o.n] && Meaning(q) == o.v)
      && (o.More? ==> Explains(o.c, h + s, a'))
    decreases |s|
  {
    hide Step, WellFormed, Render, Meaning, Explains;
    if s == [] {
      a', q := a, Simple([]);
      assert h + s == h;
    } else {
      a', q := StepSound(c, h, a, s[0]);
      if Step(c, s[0]).Go? {
        a', q := RunSound(Step(c, s[0]).c, h + [s[0]], a', s[1..]);
        assert h + [s[0]] + s[1..] == h + s;
        var o := Run(c, s);
        if o.Done? {
          assert h + [s[0]] + s[1..][..o.n - 1] == h + s[..o.n];
        }
      }
    }
  }

  /** Soundness: a completed parse has consumed exactly one well-formed reply and returns its value. */
  lemma CompletedIsReply(s: seq<byte>) returns (r: Reply)
    requires Run(INITIAL, s).Done?
    ensures WellFormed(r) && Render(r) == s[..Run(INITIAL, s).n] && Meaning(r) == Run(INITIAL, s).v
  {
    var a;
    a, r := RunSound(INITIAL, [], Account([], [], []), s);
    assert [] + s[..Run(INITIAL, s).n] == s[..Run(INITIAL, s).n];
  }

  /** A parse that wants more has suspended exactly what it read: along the frames, outermost first, every open
      array shows its header and built elements, which with its remaining count make up the declared size. */
  lemma SuspendedIsExplained(s: seq<byte>)
    requires Run(INITIAL, s).More?
    ensures exists a :: Explains(Run(INITIAL, s).c, s, a)
  {
    var a, _ := RunSound(INITIAL, [], Account([], [], []), s);
    assert [] + s == s;
  }

  /** A parse completes exactly when its input starts with a well-formed reply. */
  lemma CompletesIffReply(s: seq<byte>)
    ensures Run(INITIAL, s).Done? <==> exists r :: WellFormed(r) && Render(r) <= s
  {
    if Run(INITIAL, s).Done? {
      var r := CompletedIsReply(s);
      assert WellFormed(r) && Render(r) <= s;
    }
    forall r | WellFormed(r) && Render(r) <= s
      ensures Run(INITIAL, s).Done?
    {
      ReplyParses(r, s[|Render(r)|..]);
      assert Render(r) + s[|Render(r)|..] == s;
    }
  }

  /** An error is final: no reply begins with the bytes up to the rejected one, nor lies within the input. */
  lemma RejectedIsNoReply(s: seq<byte>, r: Reply)
    requires Run(INITIAL, s).Bad? && WellFormed(r)
    ensures !(s[..Run(INITIAL, s).n] <= Render(r)) && !(Render(r) <= s)
  {
    hide Run, Render, WellFormed, Meaning;
    var n := Run(INITIAL, s).n;
    if Render(r) <= s {
      var rest := s[|Render(r)|..];
      assert s == Render(r) + rest;
      ReplyParses(r, rest);
    } else if s[..n] <= Render(r) {
      var x := Render(r)[n..];
      RejectedEarly(INITIAL, s);
      RunAppend(INITIAL, s[..n], x);
      assert s[..n] + x == Render(r) == Render(r) + [];
      ReplyParses(r, []);
    }
  }

  /** The bytes after the rejected one play no part. */
  lemma RejectedEarly(c: Config, s: seq<byte>)
    requires Run(c, s).Bad?
    ensures Run(c, s[..Run(c, s).n]) == Run(c, s)
  {
    var n := Run(c, s).n;
    assert s[..n] + s[n..] == s;
    RunAppend(c, s[..n], s[n..]);
  }
}
