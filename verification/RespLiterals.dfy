/** The reply language in plain numbers, without the predicates the parser itself uses: what is accepted and what
    is rejected, byte for byte. */
module RespLiterals {
  import opened Bytes
  import opened Decimal
  import opened RespMachine
  import opened RespGrammar

  ghost predicate Printable(t: seq<byte>) {
    forall k :: 0 <= k < |t| ==> 32 <= t[k] <= 126
  }

  ghost predicate Numerals(d: seq<byte>) {
    forall k :: 0 <= k < |d| ==> 48 <= d[k] <= 57 || d[k] == 45
  }

  lemma PrintableIsText(t: seq<byte>)
    ensures AllText(t) <==> Printable(t)
  {
    assert forall k :: 0 <= k < |t| ==> (IsText(t[k]) <==> 32 <= t[k] <= 126);
  }

  lemma NumeralsAreNumeric(d: seq<byte>)
    ensures AllNumeric(d) <==> Numerals(d)
  {
    assert forall k :: 0 <= k < |d| ==> (IsNumeric(d[k]) <==> 48 <= d[k] <= 57 || d[k] == 45);
  }

  /** A line of bytes 32 to 126 after `+` is a string and after `-` an error, whatever follows. */
  lemma TextLine(t: seq<byte>, rest: seq<byte>)
    requires Printable(t)
    ensures Run(INITIAL, [43] + t + [13, 10] + rest) == Done(RedisValue.Bytes(t, false), |t| + 3)
    ensures Run(INITIAL, [45] + t + [13, 10] + rest) == Done(RedisValue.Bytes(t, true), |t| + 3)
  {
    hide Run, IsText;
    PrintableIsText(t);
    RunTextLine(false, t, [], rest);
    RunTextLine(true, t, [], rest);
  }

  /** Collecting the bytes of a text line, from any point of it. */
  lemma {:induction false} CollectText(error: bool, buf: seq<byte>, t: seq<byte>, s: seq<byte>)
    requires Printable(t)
    ensures var sc := if error then ErrorString(buf) else String(buf);
            var sc' := if error then ErrorString(buf + t) else String(buf + t);
            Run(Config(sc, []), t + s) == Run(Config(sc', []), s).Shift(|t|)
    decreases |t|
  {
    if t == [] {
      assert buf + t == buf && t + s == s;
    } else {
      assert (t + s)[1..] == t[1..] + s && buf + [t[0]] + t[1..] == buf + t;
      CollectText(error, buf + [t[0]], t[1..], s);
    }
  }

  /** What follows the beginning of a text line. */
  lemma AfterText(error: bool, t: seq<byte>, s: seq<byte>)
    requires Printable(t)
    ensures var sc := if error then ErrorString(t) else String(t);
      Run(INITIAL, [if error then 45 else 43] + (t + s)) == Run(Config(sc, []), s).Shift(|t| + 1)
  {
    hide Run;
    var marker: byte := if error then 45 else 43;
    RunByte(INITIAL, marker, t + s);
    assert Step(INITIAL, marker) == Go(Config(if error then ErrorString([]) else String([]), []));
    CollectText(error, [], t, s);
    assert [] + t == t;
  }

  /** A byte other than 32 to 126 and the carriage return is rejected where it stands. */
  lemma TextRejects(error: bool, t: seq<byte>, c: byte, rest: seq<byte>)
    requires Printable(t) && c != 13 && !(32 <= c <= 126)
    ensures Run(INITIAL, [if error then 45 else 43] + t + [c] + rest) == Bad(|t| + 2)
  {
    var marker: byte := if error then 45 else 43;
    assert [marker] + t + [c] + rest == [marker] + (t + ([c] + rest));
    AfterText(error, t, [c] + rest);
    RunByte(Config(if error then ErrorString(t) else String(t), []), c, rest);
    hide Run;
  }

  /** So is anything but a line feed behind the carriage return. */
  lemma TextNeedsLineFeed(error: bool, t: seq<byte>, c: byte, rest: seq<byte>)
    requires Printable(t) && c != 10
    ensures Run(INITIAL, [if error then 45 else 43] + t + [13] + [c] + rest) == Bad(|t| + 3)
  {
    hide Run;
    var marker: byte := if error then 45 else 43;
    assert [marker] + t + [13] + [c] + rest == [marker] + (t + ([13] + ([c] + rest)));
    AfterText(error, t, [13] + ([c] + rest));
    RunByte(Config(if error then ErrorString(t) else String(t), []), 13, [c] + rest);
    RunByte(Config(if error then ErrorLF(t) else StringLF(t), []), c, rest);
  }

  /** The three kinds of numeric lines: integers, bulk sizes, array sizes. */
  function LineOf(marker: byte): NumericLine
    requires marker in [58, 36, 42]
  {
    if marker == 58 then Integers else if marker == 36 then BulkSizes else ArraySizes
  }

  lemma {:induction false} CollectNumeral(line: NumericLine, buf: seq<byte>, d: seq<byte>, s: seq<byte>)
    requires Numerals(d)
    ensures Run(Config(line.Collecting(buf), []), d + s) == Run(Config(line.Collecting(buf + d), []), s).Shift(|d|)
    decreases |d|
  {
    if d == [] {
      assert buf + d == buf && d + s == s;
    } else {
      assert (d + s)[1..] == d[1..] + s && buf + [d[0]] + d[1..] == buf + d;
      CollectNumeral(line, buf + [d[0]], d[1..], s);
    }
  }

  /** What follows the beginning of a numeric line. */
  lemma AfterNumeral(marker: byte, d: seq<byte>, s: seq<byte>)
    requires marker in [58, 36, 42] && Numerals(d)
    ensures Run(INITIAL, [marker] + (d + s)) == Run(Config(LineOf(marker).Collecting(d), []), s).Shift(|d| + 1)
  {
    hide Run;
    var line := LineOf(marker);
    RunByte(INITIAL, marker, d + s);
    assert Step(INITIAL, marker) == Go(Config(line.Collecting([]), []));
    CollectNumeral(line, [], d, s);
    assert [] + d == d;
  }

  /** In a numeric line anything but digits, minus signs and the carriage return is rejected where it stands, and so
      is the carriage return of an empty numeral. */
  lemma NumeralRejects(marker: byte, d: seq<byte>, c: byte, rest: seq<byte>)
    requires marker in [58, 36, 42] && Numerals(d)
    requires if c == 13 then d == [] else c != 45 && !(48 <= c <= 57)
    ensures Run(INITIAL, [marker] + d + [c] + rest) == Bad(|d| + 2)
  {
    hide Run;
    assert [marker] + d + [c] + rest == [marker] + (d + ([c] + rest));
    AfterNumeral(marker, d, [c] + rest);
    RunByte(Config(LineOf(marker).Collecting(d), []), c, rest);
  }

  lemma NumeralNeedsLineFeed(marker: byte, d: seq<byte>, c: byte, rest: seq<byte>)
    requires marker in [58, 36, 42] && Numerals(d) && d != [] && c != 10
    ensures Run(INITIAL, [marker] + d + [13] + [c] + rest) == Bad(|d| + 3)
  {
    hide Run, StrToL;
    assert [marker] + d + [13] + [c] + rest == [marker] + (d + ([13] + ([c] + rest)));
    AfterNumeral(marker, d, [13] + ([c] + rest));
    RunByte(Config(LineOf(marker).Collecting(d), []), 13, [c] + rest);
    RunByte(Config(LineOf(marker).Collected(d), []), c, rest);
  }

  /** Any other first byte is rejected at once. */
  lemma MarkerRejects(c: byte, rest: seq<byte>)
    ensures c !in [43, 45, 58, 36, 42] ==> Run(INITIAL, [c] + rest) == Bad(1)
  {
    RunByte(INITIAL, c, rest);
  }

  /** A 64-bit integer line. */
  lemma IntegerLine(i: int, rest: seq<byte>)
    requires -9223372036854775808 <= i <= 9223372036854775807
    ensures Run(INITIAL, [58] + Decimal.Decimal(i) + [13, 10] + rest) == Done(Int(i), |Decimal.Decimal(i)| + 3)
  {
    StrToLOfDecimal(i);
    ReplyParses(Number(Decimal.Decimal(i)), rest);
    assert Render(Number(Decimal.Decimal(i))) == [58] + Decimal.Decimal(i) + [13, 10];
  }

  /** A bulk string takes exactly the announced number of bytes, whatever they are. */
  lemma BulkString(body: seq<byte>, rest: seq<byte>)
    requires |body| <= 9223372036854775807
    ensures var head := [36] + Decimal.Decimal(|body|) + [13, 10];
      Run(INITIAL, head + body + [13, 10] + rest) == Done(RedisValue.Bytes(body, false), |head| + |body| + 2)
  {
    var d := Decimal.Decimal(|body|);
    StrToLOfDecimal(|body|);
    ReplyParses(Blob(d, body), rest);
    assert Render(Blob(d, body)) == [36] + d + [13, 10] + body + [13, 10];
  }

  /** `$-1` is null; `*0` and `*-1` are empty arrays. */
  lemma SpecialSizes(rest: seq<byte>)
    ensures Run(INITIAL, [36, 45, 49, 13, 10] + rest) == Done(Null, 5)
    ensures Run(INITIAL, [42, 48, 13, 10] + rest) == Done(Array([]), 4)
    ensures Run(INITIAL, [42, 45, 49, 13, 10] + rest) == Done(Array([]), 5)
  {
    hide Run;
    assert StrToL([45, 49]) == -1 by {
      assert [45, 49][1..] == [49] && [49][1..] == [];
    }
    assert StrToL([48]) == 0 by {
      assert [48][1..] == [];
    }
    ReplyParses(Nil([45, 49]), rest);
    ReplyParses(List([48], []), rest);
    ReplyParses(List([45, 49], []), rest);
    assert Render(Nil([45, 49])) == [36, 45, 49, 13, 10];
    assert Render(List([48], [])) == [42, 48, 13, 10];
    assert Render(List([45, 49], [])) == [42, 45, 49, 13, 10];
  }

  /** Any smaller size is rejected at the end of its line. */
  lemma NegativeSizes(i: int, rest: seq<byte>)
    requires -9223372036854775808 <= i < -1
    ensures Run(INITIAL, [36] + Decimal.Decimal(i) + [13, 10] + rest) == Bad(|Decimal.Decimal(i)| + 3)
    ensures Run(INITIAL, [42] + Decimal.Decimal(i) + [13, 10] + rest) == Bad(|Decimal.Decimal(i)| + 3)
  {
    hide Run;
    var d := Decimal.Decimal(i);
    StrToLOfDecimal(i);
    RunHeader(BulkSizes, d, [], rest);
    RunHeader(ArraySizes, d, [], rest);
  }

  /** Behind the body of a bulk string a carriage return and a line feed must follow. */
  lemma BulkNeedsEnd(body: seq<byte>, c: byte, rest: seq<byte>)
    requires |body| <= 9223372036854775807
    ensures var head := [36] + Decimal.Decimal(|body|) + [13, 10];
      && (c != 13 ==> Run(INITIAL, head + (body + [c] + rest)) == Bad(|head| + |body| + 1))
      && (c != 10 ==> Run(INITIAL, head + (body + [13] + [c] + rest)) == Bad(|head| + |body| + 2))
  {
    hide Run;
    AfterBulk(body, [c] + rest);
    AfterBulk(body, [13] + ([c] + rest));
    assert body + [c] + rest == body + ([c] + rest);
    assert body + [13] + [c] + rest == body + ([13] + ([c] + rest));
    RunByte(Config(BulkCR(body), []), c, rest);
    RunByte(Config(BulkCR(body), []), 13, [c] + rest);
    RunByte(Config(BulkLF(body), []), c, rest);
  }

  lemma AfterBulk(body: seq<byte>, s: seq<byte>)
    requires |body| <= 9223372036854775807
    ensures var head := [36] + Decimal.Decimal(|body|) + [13, 10];
      Run(INITIAL, head + (body + s)) == Run(Config(BulkCR(body), []), s).Shift(|head| + |body|)
  {
    hide Run;
    StrToLOfDecimal(|body|);
    RunHeader(BulkSizes, Decimal.Decimal(|body|), [], body + s);
    if body == [] {
      assert body + s == s;
    } else {
      RunBulk([], |body|, [], body + s);
      assert (body + s)[..|body|] == body && (body + s)[|body|..] == s && [] + body == body;
    }
  }
}
