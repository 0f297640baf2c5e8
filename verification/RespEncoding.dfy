/** Writing values: a canonical encoding for every value, and the command encoder of the client. */
module RespEncoding {
  import opened Bytes
  import opened Decimal
  import opened RespMachine
  import opened RespGrammar

  /** What RESP2 can carry: 64-bit integers, printable error lines, sizes that fit a `long`. */
  ghost predicate Encodable(v: RedisValue) {
    match v
    case Null => true
    case Int(i) => InLong(i)
    case Bytes(d, error) => if error then AllText(d) else |d| <= LONG_MAX
    case Array(items) => |items| <= LONG_MAX && forall k :: 0 <= k < |items| ==> Encodable(items[k])
  }

  function Canonical(v: RedisValue): Reply
    decreases v, 0
  {
    match v
    case Null => Nil(Decimal.Decimal(-1))
    case Int(i) => Number(Decimal.Decimal(i))
    case Bytes(d, error) => if error then Failure(d) else Blob(Decimal.Decimal(|d|), d)
    case Array(items) => List(Decimal.Decimal(|items|), Canonicals(items))
  }

  function Canonicals(vs: seq<RedisValue>): (rs: seq<Reply>)
    ensures |rs| == |vs|
    decreases vs, 1
  {
    if vs == [] then [] else [Canonical(vs[0])] + Canonicals(vs[1..])
  }

  function Encode(v: RedisValue): seq<byte> {
    Render(Canonical(v))
  }

  lemma {:induction false} CanonicalMeans(v: RedisValue)
    requires Encodable(v)
    ensures WellFormed(Canonical(v)) && Meaning(Canonical(v)) == v
    decreases v, 0
  {
    match v {
      case Null => StrToLOfDecimal(-1);
      case Int(i) => StrToLOfDecimal(i);
      case Bytes(d, error) =>
        if !error {
          StrToLOfDecimal(|d|);
        }
      case Array(items) =>
        StrToLOfDecimal(|items|);
        CanonicalsMean(items);
    }
  }

  lemma {:induction false} CanonicalsMean(vs: seq<RedisValue>)
    requires forall k :: 0 <= k < |vs| ==> Encodable(vs[k])
    ensures AllWellFormed(Canonicals(vs)) && Meanings(Canonicals(vs)) == vs
    decreases vs, 1
  {
    if vs != [] {
      CanonicalMeans(vs[0]);
      CanonicalsMean(vs[1..]);
      assert Canonicals(vs)[1..] == Canonicals(vs[1..]);
    }
  }

  /** Round trip: parsing the encoding of any value, whatever follows it, gives back that value (error flags
      included) and consumes exactly the encoding. */
  lemma RoundTrip(v: RedisValue, rest: seq<byte>)
    requires Encodable(v)
    ensures Run(INITIAL, Encode(v) + rest) == Done(v, |Encode(v)|)
  {
    CanonicalMeans(v);
    ReplyParses(Canonical(v), rest);
  }

  // ----- Commands -----

  /** The reply value a server reads a command as: an array of bulk strings. */
  function CommandValue(items: seq<seq<byte>>): RedisValue {
    Array(seq(|items|, k requires 0 <= k < |items| => Bytes(items[k], false)))
  }

  /** The sizes a `long` on the other side can hold; no vector in memory exceeds them. */
  ghost predicate Sendable(items: seq<seq<byte>>) {
    |items| <= LONG_MAX && forall k :: 0 <= k < |items| ==> |items[k]| <= LONG_MAX
  }

  lemma CommandEncodable(items: seq<seq<byte>>)
    requires Sendable(items)
    ensures Encodable(CommandValue(items))
  {
    var vs := CommandValue(items).items;
    forall k | 0 <= k < |vs|
      ensures Encodable(vs[k])
    {
      assert vs[k] == Bytes(items[k], false);
    }
  }

  lemma CommandSnoc(items: seq<seq<byte>>, k: nat)
    requires k < |items|
    ensures RenderAll(Canonicals(CommandValue(items[..k + 1]).items))
         == RenderAll(Canonicals(CommandValue(items[..k]).items))
            + [36] + Decimal.Decimal(|items[k]|) + CRLF + items[k] + CRLF
  {
    var v := Bytes(items[k], false);
    var vs := CommandValue(items[..k]).items;
    assert CommandValue(items[..k + 1]).items == vs + [v];
    CanonicalsSnoc(vs, v);
    RenderAllSnoc(Canonicals(vs), Canonical(v));
  }

  lemma {:induction false} CanonicalsSnoc(vs: seq<RedisValue>, v: RedisValue)
    ensures Canonicals(vs + [v]) == Canonicals(vs) + [Canonical(v)]
  {
    if vs == [] {
      assert [v][1..] == [];
    } else {
      assert (vs + [v])[1..] == vs[1..] + [v];
      CanonicalsSnoc(vs[1..], v);
    }
  }

  /** `makeCommand`: the bytes it builds are the canonical encoding of the array of its arguments. */
  method MakeCommand(items: seq<seq<byte>>) returns (result: seq<byte>)
    ensures result == Encode(CommandValue(items))
  {
    result := [42];
    result := result + Decimal.Decimal(|items|);
    result := result + CRLF;
    ghost var header := result;
    for k := 0 to |items|
      invariant result == header + RenderAll(Canonicals(CommandValue(items[..k]).items))
    {
      CommandSnoc(items, k);
      result := result + [36];
      result := result + Decimal.Decimal(|items[k]|);
      result := result + CRLF;
      result := result + items[k];
      result := result + CRLF;
    }
    assert items[..|items|] == items;
  }

  /** No two commands share an encoding, nor is one the beginning of another's. */
  lemma CommandsPrefixFree(a: seq<seq<byte>>, b: seq<seq<byte>>, x: seq<byte>, y: seq<byte>)
    requires Sendable(a) && Sendable(b)
    requires Encode(CommandValue(a)) + x == Encode(CommandValue(b)) + y
    ensures a == b && x == y
  {
    CommandEncodable(a);
    CommandEncodable(b);
    CanonicalMeans(CommandValue(a));
    CanonicalMeans(CommandValue(b));
    PrefixFree(Canonical(CommandValue(a)), Canonical(CommandValue(b)), x, y);
    var va, vb := CommandValue(a).items, CommandValue(b).items;
    assert va == vb;
    assert |a| == |b|;
    forall k | 0 <= k < |a|
      ensures a[k] == b[k]
    {
      assert va[k].data == vb[k].data;
    }
  }
}
