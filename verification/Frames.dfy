/** The packet framing of client sessions: an 8-byte header that announces the length of the body. */
module Frames {
  import opened Bytes

  const HEADER_SIZE := 8
  const H1: byte := 0xDD
  const H2: byte := 0x05
  const NOENCRYP: byte := 0x02
  const ENCRYP: byte := 0x04

  type Packet = seq<byte>

  predicate ValidHead(h: seq<byte>)
    requires |h| >= HEADER_SIZE
  {
    h[0] == H1 && h[1] == H2 && (h[3] == ENCRYP || h[3] == NOENCRYP)
  }

  /** `usBodyLen`, little-endian in the last two header bytes. */
  function BodyLen(h: seq<byte>): nat
    requires |h| >= HEADER_SIZE
  {
    h[6] + 256 * (h[7] as int)
  }

  /** A packet that is dispatched: a valid header and a non-empty body of the announced length. */
  ghost predicate IsPacket(p: Packet) {
    |p| > HEADER_SIZE && ValidHead(p) && |p| == HEADER_SIZE + BodyLen(p)
  }

  /** The same in numbers. */
  lemma PacketInNumbers(p: Packet)
    ensures IsPacket(p) <==>
              && |p| > 8 && p[0] == 221 && p[1] == 5 && (p[3] == 2 || p[3] == 4)
              && |p| == 8 + (p[6] as int) + 256 * (p[7] as int)
  {
  }

  ghost predicate AllPackets(ps: seq<Packet>) {
    forall k :: 0 <= k < |ps| ==> IsPacket(ps[k])
  }

  function Join(ps: seq<Packet>): seq<byte> {
    if ps == [] then [] else ps[0] + Join(ps[1..])
  }

  /** The packets at the start of a byte stream, up to the first invalid header, empty body or cut-off. */
  function Packets(s: seq<byte>): seq<Packet>
    decreases |s|
  {
    if |s| < HEADER_SIZE || !ValidHead(s) || BodyLen(s) == 0 || |s| < HEADER_SIZE + BodyLen(s) then []
    else
      var n := HEADER_SIZE + BodyLen(s);
      [s[..n]] + Packets(s[n..])
  }

  lemma HeadOfPacket(p: Packet, rest: seq<byte>)
    requires IsPacket(p)
    ensures var s := p + rest;
      && ValidHead(s) && BodyLen(s) == BodyLen(p)
      && s[..HEADER_SIZE + BodyLen(s)] == p && s[HEADER_SIZE + BodyLen(s)..] == rest
  {
    var s := p + rest;
    assert s[..|p|] == p && s[|p|..] == rest;
  }

  lemma FirstPacket(p: Packet, rest: seq<byte>)
    requires IsPacket(p)
    ensures Packets(p + rest) == [p] + Packets(rest)
  {
    HeadOfPacket(p, rest);
  }

  /** Packets in front of a stream are recognised, and recognition continues behind them. */
  lemma {:induction false} PacketsOfJoin(ps: seq<Packet>, rest: seq<byte>)
    requires AllPackets(ps)
    ensures Packets(Join(ps) + rest) == ps + Packets(rest)
    decreases |ps|
  {
    hide Packets, IsPacket;
    if ps == [] {
      assert Join(ps) + rest == rest && ps + Packets(rest) == Packets(rest);
    } else {
      assert Join(ps) + rest == ps[0] + (Join(ps[1..]) + rest);
      FirstPacket(ps[0], Join(ps[1..]) + rest);
      PacketsOfJoin(ps[1..], rest);
      assert [ps[0]] + (ps[1..] + Packets(rest)) == ps + Packets(rest);
    }
  }

  lemma {:induction false} PacketsAreAPrefix(s: seq<byte>)
    ensures AllPackets(Packets(s)) && Join(Packets(s)) <= s
    decreases |s|
  {
    if Packets(s) != [] {
      var n := HEADER_SIZE + BodyLen(s);
      PacketsAreAPrefix(s[n..]);
      assert Packets(s)[1..] == Packets(s[n..]);
      assert IsPacket(s[..n]);
      assert s == s[..n] + s[n..];
      assert Join(Packets(s)) == s[..n] + Join(Packets(s[n..]));
    }
  }

  /** `Packets(s)` is the longest list of packets that `s` starts with. */
  lemma PacketsIsLongest(s: seq<byte>, ps: seq<Packet>)
    requires AllPackets(ps) && Join(ps) <= s
    ensures ps <= Packets(s) && AllPackets(Packets(s)) && Join(Packets(s)) <= s
  {
    PacketsAreAPrefix(s);
    var rest := s[|Join(ps)|..];
    assert s == Join(ps) + rest;
    PacketsOfJoin(ps, rest);
  }

  lemma {:induction false} JoinSnoc(ps: seq<Packet>, p: Packet)
    ensures Join(ps + [p]) == Join(ps) + p
  {
    if ps == [] {
      assert [p][1..] == [];
    } else {
      assert (ps + [p])[1..] == ps[1..] + [p];
      JoinSnoc(ps[1..], p);
    }
  }
}
