/**
 FrameCodec.ReadFrame and readLoop as they run: io.ReadFull over a connection that hands out
 arbitrary chunks, into buffers taken from and returned to a pool. The methods refine the pure
 parser of module Frames, and a returned frame never shares storage with the pool.
 */
module FrameReader {
  import opened Frames

  const MIN_BUFFER: nat := 64 * 1024

  function Flat(chunks: seq<seq<byte>>): seq<byte>
  {
    if chunks == [] then [] else chunks[0] + Flat(chunks[1..])
  }

  /** A connection: `chunks` is how the incoming bytes are cut into reads; after them reading fails
      (end of stream, deadline, reset or local close). */
  class Conn {
    var chunks: seq<seq<byte>>

    constructor (chunks: seq<seq<byte>>)
      ensures this.chunks == chunks
    {
      this.chunks := chunks;
    }

    /** net.Conn.Read into buf[from..to]. */
    method Read(buf: array<byte>, from: nat, to: nat) returns (n: nat, ok: bool)
      requires from < to <= buf.Length
      modifies this, buf
      ensures ok == (old(chunks) != [])
      ensures !ok ==> n == 0 && chunks == [] && buf[..] == old(buf[..])
      ensures ok ==> from + n <= to && n <= |old(Flat(chunks))|
      ensures ok ==> buf[..] == old(buf[..from]) + old(Flat(chunks))[..n] + old(buf[from + n..])
      ensures ok ==> Flat(chunks) == old(Flat(chunks))[n..]
      ensures n == 0 && ok ==> |chunks| < |old(chunks)|
    {
      if chunks == [] {
        return 0, false;
      }
      var c := chunks[0];
      ghost var all := Flat(chunks);
      n := if |c| <= to - from then |c| else to - from;
      forall k | 0 <= k < n { buf[from + k] := c[k]; }
      chunks := if n == |c| then chunks[1..] else [c[n..]] + chunks[1..];
      if n < |c| {
        assert chunks[1..] == old(chunks)[1..];
        assert c + Flat(old(chunks)[1..]) == all;
      }
      assert all[..n] == c[..n];
      ok := true;
    }
  }

  /** io.ReadFull into the first n bytes of buf. */
  method ReadFull(conn: Conn, buf: array<byte>, n: nat) returns (ok: bool)
    requires n <= buf.Length
    modifies conn, buf
    ensures ok == (n <= |old(Flat(conn.chunks))|)
    ensures ok ==> buf[..n] == old(Flat(conn.chunks))[..n] && Flat(conn.chunks) == old(Flat(conn.chunks))[n..]
    ensures !ok ==> conn.chunks == []
  {
    ghost var all := Flat(conn.chunks);
    var i := 0;
    while i < n
      invariant i <= n && i <= |all|
      invariant buf[..i] == all[..i]
      invariant Flat(conn.chunks) == all[i..]
      decreases n - i, |conn.chunks|
    {
      ghost var was, rest := buf[..], Flat(conn.chunks);
      var k, more := conn.Read(buf, i, n);
      if !more {
        return false;
      }
      assert buf[..i + k] == was[..i] + rest[..k] == all[..i + k] by {
        assert buf[..i + k] == buf[..][..i + k];
      }
      i := i + k;
    }
    ok := true;
  }

  /** A pooled *[]byte: its capacity is the length of the backing array. */
  class Buffer {
    var store: array<byte>
    var len: nat

    constructor ()
      ensures fresh(store) && store.Length == MIN_BUFFER == len
    {
      store := new byte[MIN_BUFFER];
      len := MIN_BUFFER;
    }
  }

  /** The pool without the buffer at `pick`, if there is one. */
  function Taken(pool: seq<Buffer>, pick: nat): seq<Buffer>
  {
    if pick < |pool| then pool[..pick] + pool[pick + 1..] else pool
  }

  /** The buffer taken from `was`, or a new one if none was, has been put back: no buffer is lost. */
  predicate PutBack(was: seq<Buffer>, pick: nat, pool: seq<Buffer>)
  {
    && |pool| == |Taken(was, pick)| + 1 && pool[..|pool| - 1] == Taken(was, pick)
    && (pick < |was| ==> pool[|pool| - 1] == was[pick])
  }

  /** The header announces a frame of acceptable size, so its payload is read into a buffer. */
  predicate Announced(b: seq<byte>) { |b| >= 4 && !ParseOne(b).BadLength? }

  lemma PuttingBack(was: seq<Buffer>, pick: nat, b: Buffer)
    requires pick < |was| ==> b == was[pick]
    ensures PutBack(was, pick, Taken(was, pick) + [b])
  {
  }

  lemma FrameAnnounced(b: seq<byte>)
    ensures ParseOne(b).Frame? ==> Announced(b)
  {
  }

  /** A copy of the payload in a buffer. */
  method CopyOut(b: Buffer) returns (data: array<byte>)
    requires b.len <= b.store.Length
    ensures fresh(data) && data[..] == b.store[..b.len]
  {
    data := new byte[b.len];
    forall k | 0 <= k < b.len { data[k] := b.store[k]; }
  }

  class FrameCodec {
    var pool: seq<Buffer>

    /** Every buffer and array that is or was in the pool or in use. */
    ghost var repr: set<object>

    /** No buffer is pooled twice, no two pooled buffers share an array, and every capacity is
        between 64 KiB and 16 MiB. */
    ghost predicate Valid()
      reads this, pool
    {
      && (forall i, j :: 0 <= i < j < |pool| ==> pool[i] != pool[j] && pool[i].store != pool[j].store)
      && (forall b :: b in pool ==> MIN_BUFFER <= b.store.Length <= MAX_FRAME)
      && (forall b :: b in pool ==> b in repr && b.store in repr)
    }

    constructor ()
      ensures Valid() && pool == [] && repr == {}
    {
      pool, repr := [], {};
    }

    /** sync.Pool.Get: any pooled buffer, or a new one. */
    method Get(pick: nat) returns (b: Buffer)
      requires Valid()
      modifies this
      ensures Valid() && fresh(repr - old(repr)) && b !in pool && b in repr && b.store in repr
      ensures pool == Taken(old(pool), pick) && (pick < |old(pool)| ==> b == old(pool)[pick])
      ensures forall p :: p in pool ==> p.store != b.store
      ensures MIN_BUFFER <= b.store.Length <= MAX_FRAME
    {
      if pick < |pool| {
        b := pool[pick];
        pool := pool[..pick] + pool[pick + 1..];
      } else {
        b := new Buffer();
        repr := repr + {b, b.store};
      }
    }

    /** The pool may drop any buffer at any time. */
    method Discard(pick: nat)
      requires Valid()
      modifies this`pool
      ensures Valid() && forall p :: p in pool ==> p in old(pool)
    {
      if pick < |pool| {
        pool := pool[..pick] + pool[pick + 1..];
      }
    }

    /** The pool drops some of its buffers, one after the other. */
    method DiscardAll(picks: seq<nat>)
      requires Valid()
      modifies this`pool
      ensures Valid() && forall p :: p in pool ==> p in old(pool)
    {
      for i := 0 to |picks|
        invariant Valid() && forall p :: p in pool ==> p in old(pool)
      {
        Discard(picks[i]);
      }
    }

    /** sync.Pool.Put after the length was reset to 0. */
    method Put(b: Buffer)
      requires Valid() && b !in pool && b in repr && b.store in repr && forall p :: p in pool ==> p.store != b.store
      requires MIN_BUFFER <= b.store.Length <= MAX_FRAME
      modifies this`pool, b`len
      ensures Valid() && pool == old(pool) + [b] && b.len == 0
    {
      b.len := 0;
      pool := pool + [b];
    }

    /** A buffer from the pool, and the array to fill: its own, or a new one when it is too small. */
    method Fetch(pick: nat, length: nat) returns (b: Buffer, buf: array<byte>)
      requires Valid() && length <= MAX_FRAME
      modifies this
      ensures Valid() && fresh(repr - old(repr)) && b !in pool && b in repr && b.store in repr && buf in repr
      ensures pool == Taken(old(pool), pick) && (pick < |old(pool)| ==> b == old(pool)[pick])
      ensures forall p :: p in pool ==> p.store != b.store && p.store != buf
      ensures MIN_BUFFER <= b.store.Length <= MAX_FRAME
      ensures length <= buf.Length && MIN_BUFFER <= buf.Length <= MAX_FRAME
      ensures b.store.Length >= length ==> buf == b.store
    {
      b := Get(pick);
      buf := b.store;
      if buf.Length < length {
        buf := new byte[length];
        repr := repr + {buf};
      }
    }

    /** The second half of readFrameInternal: a pooled buffer, grown if too small, filled with the
        payload. A buffer whose payload could not be read goes back to the pool. */
    method Fill(conn: Conn, pick: nat, length: nat) returns (ok: bool, b: Buffer?)
      requires Valid() && length <= MAX_FRAME
      modifies this, conn, repr
      ensures Valid() && fresh(repr - old(repr)) && ok == (length <= |old(Flat(conn.chunks))|)
      ensures !ok ==> PutBack(old(pool), pick, pool)
      ensures ok ==> pool == Taken(old(pool), pick) && (pick < |old(pool)| ==> b == old(pool)[pick])
      ensures ok ==>
        && b != null && b !in pool && (forall p :: p in pool ==> p.store != b.store)
        && b in repr && b.store in repr
        && MIN_BUFFER <= b.store.Length <= MAX_FRAME
        && b.len == length <= b.store.Length
        && b.store[..length] == old(Flat(conn.chunks))[..length]
        && Flat(conn.chunks) == old(Flat(conn.chunks))[length..]
    {
      hide Flat, PutBack, Taken;
      var buf;
      b, buf := Fetch(pick, length);
      PuttingBack(old(pool), pick, b);
      ok := ReadFull(conn, buf, length);
      assert Valid();
      if !ok {
        Put(b);
        return false, null;
      }
      b.store, b.len := buf, length;
      assert Valid();
    }

    /** readFrameInternal: header, size check, payload. */
    method ReadInto(conn: Conn, pick: nat) returns (ok: bool, b: Buffer?)
      requires Valid()
      modifies this, conn, repr
      ensures Valid() && fresh(repr - old(repr)) && ok == ParseOne(old(Flat(conn.chunks))).Frame?
      ensures !ok ==> if Announced(old(Flat(conn.chunks))) then PutBack(old(pool), pick, pool) else pool == old(pool)
      ensures ok ==> pool == Taken(old(pool), pick) && (pick < |old(pool)| ==> b == old(pool)[pick])
      ensures ok ==>
        var f := ParseOne(old(Flat(conn.chunks)));
        && b != null && b !in pool && (forall p :: p in pool ==> p.store != b.store)
        && b in repr && b.store in repr
        && MIN_BUFFER <= b.store.Length <= MAX_FRAME
        && b.len == |f.payload| <= b.store.Length && b.store[..b.len] == f.payload
        && Flat(conn.chunks) == f.rest
    {
      ghost var all := Flat(conn.chunks);
      b := null;
      var header := new byte[4];
      ok := ReadFull(conn, header, 4);
      if !ok {
        return;
      }
      assert header[..] == all[..4];
      var length := FromBigEndian(header[..]);
      if length <= 0 || length > MAX_FRAME {
        return false, null;
      }
      ok, b := Fill(conn, pick, length);
      assert ok ==> all[4..][..length] == all[4..4 + length] && all[4..][length..] == all[4 + length..];
    }

    /** Copies the payload out of a buffer and pools the buffer. */
    method Release(b: Buffer) returns (data: array<byte>)
      requires Valid() && b !in pool && (forall p :: p in pool ==> p.store != b.store)
      requires MIN_BUFFER <= b.store.Length <= MAX_FRAME && b.len <= b.store.Length
      requires b in repr && b.store in repr
      modifies this`pool, b`len
      ensures Valid() && pool == old(pool) + [b]
      ensures fresh(data) && data[..] == old(b.store[..b.len]) && data !in repr
    {
      data := CopyOut(b);
      Put(b);
    }

    /** ReadFrame copies the payload out before the buffer is pooled again. */
    method ReadFrame(conn: Conn, pick: nat) returns (ok: bool, data: array<byte>)
      requires Valid()
      modifies this, conn, repr
      ensures Valid() && ok == ParseOne(old(Flat(conn.chunks))).Frame?
      ensures if Announced(old(Flat(conn.chunks))) then PutBack(old(pool), pick, pool) else pool == old(pool)
      ensures ok ==>
        var f := ParseOne(old(Flat(conn.chunks)));
        data[..] == f.payload && Flat(conn.chunks) == f.rest
      ensures fresh(data) && data !in repr
      ensures fresh(repr - old(repr))
    {
      FrameAnnounced(Flat(conn.chunks));
      hide Flat, ParseOne, Announced, PutBack, Taken;
      var b: Buffer?;
      ok, b := ReadInto(conn, pick);
      if !ok {
        data := new byte[0];
        return;
      }
      PuttingBack(old(pool), pick, b);
      data := Release(b);
    }
  }

  /** Reads frames until the first error, keeping every returned array. All of them still hold their
      payload at the end, so no later read changed an earlier frame, whichever buffers the pool hands
      out (`picks`) and whichever it drops before each read (`drops`). */
  method ReadAll(codec: FrameCodec, conn: Conn, k: nat, picks: nat -> nat, drops: nat -> seq<nat>)
    returns (frames: seq<array<byte>>)
    requires codec.Valid()
    modifies codec, conn, codec.repr
    ensures codec.Valid() && fresh(codec.repr - old(codec.repr))
    ensures |frames| == |Parse(old(Flat(conn.chunks)))|
    ensures forall i :: 0 <= i < |frames| ==> frames[i][..] == Parse(old(Flat(conn.chunks)))[i]
    ensures forall i :: 0 <= i < |frames| ==> fresh(frames[i]) && frames[i] !in codec.repr
    decreases |Parse(Flat(conn.chunks))|
  {
    hide Flat, ParseOne, PutBack, Announced, Taken;
    codec.DiscardAll(drops(k));
    var ok, data := codec.ReadFrame(conn, picks(k));
    if !ok {
      return [];
    }
    var rest := ReadAll(codec, conn, k + 1, picks, drops);
    frames := [data] + rest;
  }

  /** readLoop: for every byte stream and every way of cutting it into reads, the gateway receives
      exactly the envelopes of the pure parse, in order. */
  method ReadLoop<E>(codec: FrameCodec, conn: Conn, decode: seq<byte> -> Decoded<E>,
                      picks: nat -> nat, drops: nat -> seq<nat>)
    returns (delivered: seq<E>)
    requires codec.Valid()
    modifies codec, conn, codec.repr
    ensures codec.Valid()
    ensures delivered == Deliver(Parse(old(Flat(conn.chunks))), decode)
  {
    hide Parse, ParseOne, Deliver, Flat, PutBack, Announced, Taken;
    delivered := [];
    ghost var all := Deliver(Parse(Flat(conn.chunks)), decode);
    var n := 0;
    while true
      invariant codec.Valid() && fresh(codec.repr - old(codec.repr))
      invariant delivered + Deliver(Parse(Flat(conn.chunks)), decode) == all
      decreases |Flat(conn.chunks)|
    {
      DeliverStep(Flat(conn.chunks), decode);
      codec.DiscardAll(drops(n));
      var ok, data := codec.ReadFrame(conn, picks(n));
      if !ok {
        return;
      }
      match decode(data[..]) {
        case Envelope(e) => delivered := delivered + [e];
        case Heartbeat =>
        case Undecodable =>
      }
      n := n + 1;
    }
  }
}
