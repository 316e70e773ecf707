/**
 The length-prefixed frames of internal/transport/frame.go as a pure format: a big-endian 4-byte
 length and a payload of 1 to MAX_FRAME bytes. Parse is the reference stream parser that the
 chunked, pooled reader in FrameReader refines.
 */
module Frames {

  type byte = x: int | 0 <= x < 256

  const MAX_FRAME: nat := 16 * 1024 * 1024

  function Pow256(k: nat): nat { if k == 0 then 1 else 256 * Pow256(k - 1) }

  /** The k low bytes of n, most significant first. */
  function BigEndian(n: nat, k: nat): (h: seq<byte>)
    ensures |h| == k
  {
    if k == 0 then [] else BigEndian(n / 256, k - 1) + [n % 256]
  }

  function FromBigEndian(h: seq<byte>): (n: nat)
    ensures n < Pow256(|h|)
  {
    if h == [] then 0 else 256 * FromBigEndian(h[..|h| - 1]) + h[|h| - 1]
  }

  lemma LastByte(n: nat, p: nat)
    requires n < 256 * p
    ensures n / 256 < p && n == 256 * (n / 256) + n % 256
  {
  }

  lemma {:induction false} BigEndianRoundTrip(n: nat, k: nat)
    requires n < Pow256(k)
    ensures FromBigEndian(BigEndian(n, k)) == n
  {
    if k > 0 {
      var h := BigEndian(n, k);
      assert h == BigEndian(n / 256, k - 1) + [n % 256];
      assert h[..k - 1] == BigEndian(n / 256, k - 1);
      LastByte(n, Pow256(k - 1));
      BigEndianRoundTrip(n / 256, k - 1);
      hide BigEndian;
      assert h[k - 1] == n % 256;
    }
  }

  lemma {:induction false} BigEndianUnique(h: seq<byte>)
    ensures BigEndian(FromBigEndian(h), |h|) == h
  {
    if h != [] {
      var r := h[..|h| - 1];
      BigEndianUnique(r);
      assert FromBigEndian(h) / 256 == FromBigEndian(r);
      assert h == r + [h[|h| - 1]];
    }
  }

  /** The header of WriteFrame: binary.BigEndian.PutUint32. */
  function Header(n: nat): (h: seq<byte>)
    ensures |h| == 4
  {
    BigEndian(n, 4)
  }

  lemma HeaderRoundTrip(n: nat)
    requires n <= MAX_FRAME
    ensures FromBigEndian(Header(n)) == n
  {
    assert Pow256(4) == 256 * (256 * (256 * 256)) by {
      assert Pow256(1) == 256 && Pow256(2) == 256 * 256;
    }
    BigEndianRoundTrip(n, 4);
  }

  /** The four bytes of a header by value, and the limit as a number. */
  lemma HeaderBytes(n: nat)
    requires n <= MAX_FRAME
    ensures Header(n) == [n / 16777216, n / 65536 % 256, n / 256 % 256, n % 256] && MAX_FRAME == 16777216
  {
    assert BigEndian(n, 4) == BigEndian(n / 256, 3) + [n % 256];
    assert BigEndian(n / 256, 3) == BigEndian(n / 65536, 2) + [n / 256 % 256];
    assert BigEndian(n / 65536, 2) == BigEndian(n / 16777216, 1) + [n / 65536 % 256];
    assert BigEndian(n / 16777216, 1) == BigEndian(n / 16777216 / 256, 0) + [n / 16777216 % 256];
  }

  /** What WriteFrame puts on the wire; it refuses only payloads over MAX_FRAME. */
  function Framed(p: seq<byte>): seq<byte>
    requires |p| <= MAX_FRAME
  {
    Header(|p|) + p
  }

  predicate Writable(ps: seq<seq<byte>>) { forall i :: 0 <= i < |ps| ==> |ps[i]| <= MAX_FRAME }

  predicate NonEmpty(ps: seq<seq<byte>>) { forall i :: 0 <= i < |ps| ==> ps[i] != [] }

  /** The bytes of a list of frames written one after the other. */
  function Wire(ps: seq<seq<byte>>): seq<byte>
    requires Writable(ps)
  {
    if ps == [] then [] else Framed(ps[0]) + Wire(ps[1..])
  }

  datatype Outcome = Frame(payload: seq<byte>, rest: seq<byte>) | BadLength | Short

  /** One ReadFrame on a stream that delivers `b` and then fails. */
  function ParseOne(b: seq<byte>): Outcome
  {
    if |b| < 4 then Short else
    var n := FromBigEndian(b[..4]);
    if n == 0 || n > MAX_FRAME then BadLength
    else if |b| < 4 + n then Short
    else Frame(b[4..4 + n], b[4 + n..])
  }

  /** All frames up to the first bad or incomplete one. */
  function Parse(b: seq<byte>): seq<seq<byte>>
    decreases |b|
  {
    match ParseOne(b)
    case Frame(p, rest) => [p] + Parse(rest)
    case _ => []
  }

  lemma ParseFramed(p: seq<byte>, rest: seq<byte>)
    requires |p| <= MAX_FRAME
    ensures ParseOne(Framed(p) + rest) == if p == [] then BadLength else Frame(p, rest)
  {
    var b := Framed(p) + rest;
    assert b[..4] == Header(|p|);
    HeaderRoundTrip(|p|);
    assert b[4..4 + |p|] == p && b[4 + |p|..] == rest;
  }

  lemma ParseCons(p: seq<byte>, rest: seq<byte>)
    requires 0 < |p| <= MAX_FRAME
    ensures Parse(Framed(p) + rest) == [p] + Parse(rest)
  {
    ParseFramed(p, rest);
  }

  lemma WireCons(p: seq<byte>, ps: seq<seq<byte>>, rest: seq<byte>, tail: seq<byte>)
    requires 0 < |p| <= MAX_FRAME && Writable(ps) && NonEmpty(ps) && rest == Wire(ps) + tail
    ensures Writable([p] + ps) && NonEmpty([p] + ps) && Framed(p) + rest == Wire([p] + ps) + tail
  {
    assert ([p] + ps)[1..] == ps;
    assert Framed(p) + (Wire(ps) + tail) == Framed(p) + Wire(ps) + tail;
  }

  /** Reading back what was written yields the payloads, then whatever follows. */
  lemma {:induction false} RoundTrip(ps: seq<seq<byte>>, rest: seq<byte>)
    requires Writable(ps) && NonEmpty(ps)
    ensures Parse(Wire(ps) + rest) == ps + Parse(rest)
  {
    hide Parse, Framed;
    if ps == [] {
      assert Wire(ps) + rest == rest;
    } else {
      var p, qs := ps[0], ps[1..];
      var b := Wire(qs) + rest;
      RoundTrip(qs, rest);
      ParseCons(p, b);
      assert [p] + qs == ps;
      WireCons(p, qs, b, rest);
      assert [p] + (qs + Parse(rest)) == [p] + qs + Parse(rest);
    }
  }

  /** The payloads before the first empty one. */
  function UpToEmpty(ps: seq<seq<byte>>): seq<seq<byte>>
  {
    if ps == [] || ps[0] == [] then [] else [ps[0]] + UpToEmpty(ps[1..])
  }

  /** WriteFrame accepts an empty payload but the reader rejects it: everything from the first empty
      frame on is lost, and nothing else is. */
  lemma {:induction false} ReadBack(ps: seq<seq<byte>>)
    requires Writable(ps)
    ensures Parse(Wire(ps)) == UpToEmpty(ps)
    ensures Parse(Wire(ps)) == ps <==> NonEmpty(ps)
  {
    if ps != [] {
      ParseFramed(ps[0], Wire(ps[1..]));
      ReadBack(ps[1..]);
      if ps[0] != [] {
        assert ps == [ps[0]] + ps[1..];
        assert UpToEmpty(ps)[1..] == UpToEmpty(ps[1..]);
      }
    }
  }

  /** A frame that was parsed is the front of the stream. */
  lemma ParsedFront(b: seq<byte>)
    requires ParseOne(b).Frame?
    ensures var f := ParseOne(b); 0 < |f.payload| <= MAX_FRAME && b == Framed(f.payload) + f.rest
  {
    BigEndianUnique(b[..4]);
  }

  /** No frame is read from a wrong offset: the parsed frames, framed again, are the front of the
      stream, and what follows them does not start with another frame. */
  lemma {:induction false} ParseExact(b: seq<byte>) returns (tail: seq<byte>)
    ensures Writable(Parse(b)) && NonEmpty(Parse(b))
    ensures b == Wire(Parse(b)) + tail && !ParseOne(tail).Frame?
    decreases |b|
  {
    match ParseOne(b)
    case Frame(p, rest) =>
      tail := ParseExact(rest);
      ParsedFront(b);
      WireCons(p, Parse(rest), rest, tail);
    case _ =>
      tail := b;
  }

  /** Receiving more bytes never changes the frames already parsed. */
  lemma {:induction false} ParsePrefix(a: seq<byte>, b: seq<byte>)
    ensures Parse(a) <= Parse(a + b)
    decreases |a|
  {
    match ParseOne(a)
    case Frame(p, rest) =>
      assert (a + b)[..4] == a[..4];
      assert (a + b)[4..4 + |p|] == p && (a + b)[4 + |p|..] == rest + b;
      ParsePrefix(rest, b);
    case _ =>
  }

  // ----- From frames to the gateway -------------------------------------------------------------

  datatype Decoded<+E> = Envelope(e: E) | Heartbeat | Undecodable

  /** What readLoop hands to the gateway: undecodable frames and heartbeats are skipped. */
  function Deliver<E>(ps: seq<seq<byte>>, decode: seq<byte> -> Decoded<E>): seq<E>
  {
    if ps == [] then [] else
    match decode(ps[0])
    case Envelope(e) => [e] + Deliver(ps[1..], decode)
    case _ => Deliver(ps[1..], decode)
  }

  lemma DeliverStep<E>(b: seq<byte>, decode: seq<byte> -> Decoded<E>)
    ensures Deliver(Parse(b), decode) ==
      match ParseOne(b)
      case Frame(p, rest) => (if decode(p).Envelope? then [decode(p).e] else []) + Deliver(Parse(rest), decode)
      case _ => []
    ensures ParseOne(b).Frame? ==> |ParseOne(b).rest| < |b|
  {
    if ParseOne(b).Frame? {
      assert Parse(b)[1..] == Parse(ParseOne(b).rest);
    }
  }

  lemma DeliverOne<E>(p: seq<byte>, decode: seq<byte> -> Decoded<E>)
    ensures Deliver([p], decode) == if decode(p).Envelope? then [decode(p).e] else []
  {
    assert [p][1..] == [];
  }

  lemma {:induction false} DeliverAppend<E>(ps: seq<seq<byte>>, qs: seq<seq<byte>>, decode: seq<byte> -> Decoded<E>)
    ensures Deliver(ps + qs, decode) == Deliver(ps, decode) + Deliver(qs, decode)
  {
    if ps == [] {
      assert ps + qs == qs;
    } else {
      assert (ps + qs)[1..] == ps[1..] + qs;
      DeliverAppend(ps[1..], qs, decode);
    }
  }

  /** If the connection fails after `a`, the gateway has seen a prefix of what the whole stream holds. */
  lemma DeliveredPrefix<E>(a: seq<byte>, b: seq<byte>, decode: seq<byte> -> Decoded<E>)
    ensures Deliver(Parse(a), decode) <= Deliver(Parse(a + b), decode)
  {
    ParsePrefix(a, b);
    var ps, qs := Parse(a), Parse(a + b);
    assert qs == ps + qs[|ps|..];
    DeliverAppend(ps, qs[|ps|..], decode);
  }
}
