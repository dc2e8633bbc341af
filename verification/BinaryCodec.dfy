/**
 The binary protocol of the multiplexer, [type:1][id_len:2][id][payload_len:4][payload],
 written into recycled buffers that are lent to the caller until Release.
 */
module BinaryCodec {
  import opened Bytes
  import opened Prelude

  datatype Packet = Packet(typ: int, id: bytes, payload: bytes)

  const POOL_SIZE: nat := 65536
  const MAX_ID_LEN: nat := 65535
  const MAX_PAYLOAD_LEN: nat := 0x8000_0000

  /** The frame format; byte(msg.Type) truncates. */
  function Wire(p: Packet): bytes {
    Head(p) + p.payload
  }

  function Head(p: Packet): (h: bytes)
    ensures |h| == 7 + |p.id|
  {
    [p.typ % 256] + Field(p.id) + Be32(|p.payload|)
  }

  /** Packets the length prefixes can describe. */
  predicate Describable(p: Packet) {
    0 <= p.typ < 256 && |p.id| < 65536 && |p.payload| < 0x1_0000_0000
  }

  /** BinaryProtocol.Decode; None stands for its two errors. */
  function Decode(data: bytes): Option<Packet> {
    if |data| < 7 then None
    else
      var idLen := U16(data, 1);
      if |data| < 3 + idLen + 4 then None
      else
        var payloadLen := U32(data, 3 + idLen);
        var at := 7 + idLen;
        if |data| < at + payloadLen then None
        else Some(Packet(data[0], data[3..3 + idLen], data[at..at + payloadLen]))
  }

  /** A frame stands at the front exactly when each of its parts stands in its place. */
  lemma WireInParts(data: bytes, p: Packet)
    ensures Wire(p) <= data <==>
            && StartsAt(data, 0, [p.typ % 256]) && StartsAt(data, 1, Field(p.id))
            && StartsAt(data, 3 + |p.id|, Be32(|p.payload|)) && StartsAt(data, 7 + |p.id|, p.payload)
  {
    hide StartsAt, Field;
    FieldLength(p.id);
    var a, b, c: bytes := [p.typ % 256], Field(p.id), Be32(|p.payload|);
    StartsAtPrefix(data, Wire(p));
    StartsAtConcat(data, 0, a + b + c, p.payload);
    StartsAtConcat(data, 0, a + b, c);
    StartsAtConcat(data, 0, a, b);
  }

  lemma WireStarts(data: bytes, p: Packet)
    requires Describable(p)
    ensures Wire(p) <= data <==>
            && 7 + |p.id| + |p.payload| <= |data|
            && data[0] == p.typ
            && U16(data, 1) == |p.id| && data[3..3 + |p.id|] == p.id
            && U32(data, 3 + |p.id|) == |p.payload|
            && data[7 + |p.id|..7 + |p.id| + |p.payload|] == p.payload
  {
    WireInParts(data, p);
    hide Wire, U16, U32, Field;
    StartsAtByte(data, 0, p.typ);
    StartsAtField(data, 1, p.id);
    StartsAtU32(data, 3 + |p.id|, |p.payload|);
    hide Be32;
  }

  /** The decoder accepts exactly the inputs that begin with a frame, and returns that frame's packet. */
  lemma DecodeIff(data: bytes, p: Packet)
    ensures Decode(data) == Some(p) <==> Describable(p) && Wire(p) <= data
  {
    if Describable(p) {
      WireStarts(data, p);
    }
  }

  lemma BinaryRoundTrip(p: Packet, suffix: bytes)
    requires 0 <= p.typ <= 255 && |p.id| <= 65535 && |p.payload| <= 0xFFFF_FFFF
    ensures Decode(Wire(p) + suffix) == Some(p)
  {
    DecodeIff(Wire(p) + suffix, p);
  }

  /** No frame is a proper prefix of another, so a stream of frames splits in one way only. */
  lemma PrefixFree(p: Packet, q: Packet, s: bytes, t: bytes)
    requires Describable(p) && Describable(q)
    requires Wire(p) + s == Wire(q) + t
    ensures p == q && s == t
  {
    BinaryRoundTrip(p, s);
    BinaryRoundTrip(q, t);
    assert (Wire(p) + s)[|Wire(p)|..] == s && (Wire(q) + t)[|Wire(q)|..] == t;
  }

  // ---- what Encode leaves in the buffer it got ----

  function Total(p: Packet): nat {
    7 + |p.id| + |p.payload|
  }

  datatype Filled = Crash | Full(frame: bytes)

  /**
   The outcome of writing a frame through a slice of length `len` over an array
   holding `before`: writes stop at `len`, but the returned slice reaches on to
   the frame's end.
   */
  ghost function Fill(before: bytes, len: nat, p: Packet): Filled
    requires len <= |before| && Total(p) <= |before|
  {
    if 7 + |p.id| > len then Crash
    else if Total(p) <= len then Full(Wire(p))
    else Full(Wire(p)[..len] + before[len..Total(p)])
  }

  /**
   A frame is right whatever the recycled array held before if and only if it
   fits the slice length. Encode compares with the capacity instead.
   */
  lemma FillCorrectIff(cap: nat, len: nat, p: Packet)
    requires len <= cap && Total(p) <= cap
    ensures (forall before: bytes | |before| == cap :: Fill(before, len, p) == Full(Wire(p))) <==> Total(p) <= len
  {
    if Total(p) > len {
      var other: byte := (Wire(p)[len] as int + 1) % 256;
      var stale: bytes := seq(cap, _ => other);
      assert |stale| == cap;
      if 7 + |p.id| <= len {
        assert Fill(stale, len, p).frame[len] == other;
      }
    }
  }

  lemma FillsExactly(before: bytes, len: nat, p: Packet)
    requires len <= |before| && Total(p) <= |before|
    ensures Total(p) <= len ==> Fill(before, len, p) == Full(Wire(p))
  {
  }

  method PutHead(buf: array<byte>, p: Packet)
    requires 7 + |p.id| <= buf.Length
    modifies buf
    ensures buf[..7 + |p.id|] == Head(p)
    ensures buf[7 + |p.id|..] == old(buf[7 + |p.id|..])
  {
    hide Field;
    FieldLength(p.id);
    var at := 3 + |p.id|;
    ghost var b0 := buf[..];
    PutBytes(buf, 0, [p.typ % 256]);
    ghost var b1 := buf[..];
    SameTail(b1, b0, 1, at + 4);
    PutBytes(buf, 1, Field(p.id));
    ghost var b2 := buf[..];
    SameTail(b2, b1, at, at + 4);
    assert buf[..at] == [p.typ % 256] + Field(p.id);
    PutBytes(buf, at, Be32(|p.payload|));
  }

  method FillBuffer(buf: array<byte>, len: nat, p: Packet) returns (ok: bool)
    requires len <= buf.Length && Total(p) <= buf.Length
    modifies buf
    ensures ok <==> Fill(old(buf[..]), len, p).Full?
    ensures ok ==> buf[..Total(p)] == Fill(old(buf[..]), len, p).frame
  {
    if 7 + |p.id| > len {
      return false;
    }
    PutHead(buf, p);
    var at := 7 + |p.id|;
    var copied := if |p.payload| <= len - at then |p.payload| else len - at;
    PutBytes(buf, at, p.payload[..copied]);
    ok := true;
    FillInTwoParts(old(buf[..]), len, p, copied);
    forall i | at + copied <= i < Total(p)
      ensures buf[i] == old(buf[i])
    {
      assert buf[i] == buf[at + copied..][i - at - copied];
    }
  }

  lemma FillInTwoParts(before: bytes, len: nat, p: Packet, copied: nat)
    requires len <= |before| && Total(p) <= |before| && 7 + |p.id| <= len
    requires copied == if |p.payload| <= len - (7 + |p.id|) then |p.payload| else len - (7 + |p.id|)
    ensures Fill(before, len, p) ==
            Full(Head(p) + p.payload[..copied] + before[7 + |p.id| + copied..Total(p)])
  {
    if Total(p) <= len {
      assert p.payload[..copied] == p.payload;
    } else {
      assert Wire(p)[..len] == Head(p) + p.payload[..copied];
    }
  }

  datatype Encoding = TooLong | Panic | Encoded(arr: array<byte>, len: nat)

  /**
   The encoder and its buffer pool. Every pooled slice has length POOL_SIZE over
   an array of at least that capacity, so the pool is a bag of arrays. `lent`
   records the frame each outstanding buffer was handed out with.
   */
  class BinaryProtocol {
    var free: multiset<array<byte>>
    ghost var lent: map<array<byte>, bytes>

    /** Nothing is pooled twice or both pooled and lent, and lent frames are as they were handed out. */
    ghost predicate Valid()
      reads this, free, lent.Keys
    {
      && (forall a :: a in free ==> a.Length >= POOL_SIZE && free[a] == 1 && a !in lent.Keys)
      && (forall a :: a in lent.Keys ==> |lent[a]| <= a.Length && a[..|lent[a]|] == lent[a])
    }

    constructor ()
      ensures Valid() && free == multiset{} && lent == map[]
    {
      free := multiset{};
      lent := map[];
    }

    /** BufferPool.Get: `pick` is the runtime's choice; anything not pooled stands for a new buffer. */
    method Get(pick: array<byte>) returns (a: array<byte>)
      requires Valid()
      modifies this`free
      ensures Valid() && a.Length >= POOL_SIZE && a !in free && a !in lent.Keys
      ensures pick in old(free) ==> a == pick && free == old(free) - multiset{a}
      ensures pick !in old(free) ==> fresh(a) && a.Length == POOL_SIZE && free == old(free)
    {
      if pick in free {
        a := pick;
        free := free - multiset{a};
      } else {
        a := new byte[POOL_SIZE](_ => 0);
      }
    }

    /** BufferPool.Put: a buffer that is too small is replaced, any other is kept at its full capacity. */
    method Put(a: array<byte>) returns (b: array<byte>)
      requires Valid()
      modifies this`free
      ensures free == old(free) + multiset{b}
      ensures if a.Length >= POOL_SIZE then b == a else fresh(b) && b.Length == POOL_SIZE
      ensures Valid() <==> b !in old(free) && b !in lent.Keys
    {
      b := a;
      if a.Length < POOL_SIZE {
        b := new byte[POOL_SIZE](_ => 0);
      }
      free := free + multiset{b};
      assert b in old(free) ==> free[b] == 2;
    }

    /**
     Encode. No outstanding frame changes. The new frame is exact whenever it
     fits POOL_SIZE or goes into a new array; in a recycled array that is large
     enough for a longer frame it is what Fill says.
     */
    method Encode(p: Packet, pick: array<byte>) returns (r: Encoding)
      requires Valid()
      modifies this, free
      ensures Valid()
      ensures r.TooLong? <==> |p.id| > 65535 || |p.payload| > 0x8000_0000
      ensures r.TooLong? ==> free == old(free)
      ensures !r.Encoded? ==> lent == old(lent)
      ensures r.Encoded? ==>
                && r.len == Total(p) && r.arr !in old(lent).Keys && r.len <= r.arr.Length
                && (r.arr in old(free) || fresh(r.arr))
                && lent.Keys == old(lent).Keys + {r.arr}
                && (forall a :: a in old(lent).Keys ==> lent[a] == old(lent)[a])
      ensures forall a :: a in free ==> a in old(free) || fresh(a)
      ensures !r.TooLong? && (Total(p) <= 65536 || pick !in old(free) || pick.Length < Total(p)) ==>
                r.Encoded? && lent[r.arr] == Wire(p)
      ensures !r.TooLong? && pick in old(free) && Total(p) <= pick.Length ==>
                var filled := Fill(old(pick[..]), POOL_SIZE, p);
                if filled.Crash? then r.Panic? else r.Encoded? && r.arr == pick && lent[pick] == filled.frame
    {
      if |p.id| > MAX_ID_LEN || |p.payload| > MAX_PAYLOAD_LEN {
        return TooLong;
      }
      hide Fill, Wire, Head;
      var buf, len := Take(Total(p), pick);
      ghost var before := buf[..];
      FillsExactly(before, len, p);
      r := Lend(buf, len, p);
    }

    /** The buffer Encode writes to and the length of its slice: a recycled one if its capacity suffices. */
    method Take(size: nat, pick: array<byte>) returns (buf: array<byte>, len: nat)
      requires Valid()
      modifies this`free
      ensures Valid() && buf !in free && buf !in lent.Keys
      ensures len <= buf.Length && size <= buf.Length
      ensures if pick in old(free) && size <= pick.Length then buf == pick && len == POOL_SIZE
              else fresh(buf) && size <= len
      ensures forall a :: a in free ==> a in old(free) || fresh(a)
    {
      buf := Get(pick);
      len := POOL_SIZE;
      if buf.Length < size {
        var _ := Put(buf);
        buf := new byte[size](_ => 0);
        len := size;
      }
    }

    /** Fills a buffer that is nobody's and hands it out. */
    method Lend(buf: array<byte>, len: nat, p: Packet) returns (r: Encoding)
      requires Valid() && buf !in free && buf !in lent.Keys
      requires len <= buf.Length && Total(p) <= buf.Length
      modifies this`lent, buf
      ensures Valid()
      ensures var filled := Fill(old(buf[..]), len, p);
              if filled.Crash? then r == Panic && lent == old(lent)
              else r == Encoded(buf, Total(p)) && lent == old(lent)[buf := filled.frame]
    {
      hide Fill, Wire, Head;
      var ok := FillBuffer(buf, len, p);
      if !ok {
        return Panic;
      }
      lent := lent[buf := buf[..Total(p)]];
      return Encoded(buf, Total(p));
    }

    /**
     Release gives a buffer to the pool; an empty slice is ignored. Pooled and
     lent buffers stay apart, and every remaining frame intact, if and only if
     the buffer was not in the pool already, so at most one Release per Encode.
     */
    method Release(arr: array<byte>, len: nat)
      requires Valid() && len <= arr.Length
      modifies this
      ensures lent == if len > 0 then old(lent) - {arr} else old(lent)
      ensures len == 0 ==> free == old(free)
      ensures len > 0 && arr.Length >= POOL_SIZE ==> free == old(free) + multiset{arr}
      ensures Valid() <==> len == 0 || arr !in old(free)
    {
      if len > 0 {
        lent := lent - {arr};
        var _ := Put(arr);
      }
    }
  }

  /**
   How a frame goes wrong: an oversized buffer is released and recycled for
   another oversized frame. What comes out has the first frame's bytes beyond
   POOL_SIZE, or is a crash when the identifier alone does not fit.
   */
  method EncodeReleaseEncode(p: Packet, q: Packet) returns (r: Filled)
    requires |p.id| <= MAX_ID_LEN && |p.payload| <= MAX_PAYLOAD_LEN
    requires |q.id| <= MAX_ID_LEN && |q.payload| <= MAX_PAYLOAD_LEN
    requires POOL_SIZE < Total(q) <= Total(p)
    ensures r == if 7 + |q.id| > POOL_SIZE then Crash
                 else Full(Wire(q)[..POOL_SIZE] + Wire(p)[POOL_SIZE..Total(q)])
  {
    var protocol := new BinaryProtocol();
    var none := new byte[0];
    var first := protocol.Encode(p, none);
    var arr := first.arr;
    ghost var before := arr[..];
    assert before[..Total(p)] == Wire(p);
    RecycledFill(before, p, q);
    hide Fill, Wire;
    protocol.Release(arr, first.len);
    var second := protocol.Encode(q, arr);
    if second.Panic? {
      return Crash;
    }
    return Full(arr[..Total(q)]);
  }

  lemma RecycledFill(before: bytes, p: Packet, q: Packet)
    requires POOL_SIZE < Total(q) <= Total(p) <= |before| && before[..Total(p)] == Wire(p)
    ensures Fill(before, POOL_SIZE, q) == if 7 + |q.id| > POOL_SIZE then Crash
            else Full(Wire(q)[..POOL_SIZE] + Wire(p)[POOL_SIZE..Total(q)])
  {
    SliceOfPrefix(before, Total(p), POOL_SIZE, Total(q));
  }

  /** The recycled frame is right if and only if it agrees with the old one beyond POOL_SIZE. */
  lemma RecycledRightIff(p: Packet, q: Packet)
    requires POOL_SIZE < Total(q) <= Total(p)
    ensures Wire(q)[..POOL_SIZE] + Wire(p)[POOL_SIZE..Total(q)] == Wire(q) <==>
            Wire(q)[POOL_SIZE..] == Wire(p)[POOL_SIZE..Total(q)]
  {
    var w := Wire(q);
    assert w == w[..POOL_SIZE] + w[POOL_SIZE..];
    var x := w[..POOL_SIZE] + Wire(p)[POOL_SIZE..Total(q)];
    assert x[POOL_SIZE..] == Wire(p)[POOL_SIZE..Total(q)];
  }

  lemma PayloadAt(p: Packet, i: nat)
    requires i < |p.payload|
    ensures |Wire(p)| == Total(p) && Wire(p)[7 + |p.id| + i] == p.payload[i]
  {
  }

  lemma StaleByte(p: Packet, q: Packet)
    requires p.id == q.id == [] && POOL_SIZE < Total(q) <= Total(p)
    requires p.payload[POOL_SIZE - 7] != q.payload[POOL_SIZE - 7]
    ensures var frame := Wire(q)[..POOL_SIZE] + Wire(p)[POOL_SIZE..Total(q)];
            |frame| == |Wire(q)| && frame != Wire(q)
  {
    PayloadAt(p, POOL_SIZE - 7);
    PayloadAt(q, POOL_SIZE - 7);
    hide Wire;
    var head, tail := Wire(q)[..POOL_SIZE], Wire(p)[POOL_SIZE..Total(q)];
    assert (head + tail)[POOL_SIZE] == tail[0] == Wire(p)[POOL_SIZE];
  }

  /** For instance with 70000 bytes each. */
  method SeventyThousandBytes() returns (q: Packet, frame: bytes)
    ensures |q.payload| == 70000 && |frame| == |Wire(q)| && frame != Wire(q)
  {
    var p := Packet(0, [], seq(70000, _ => 1));
    q := Packet(0, [], seq(70000, _ => 2));
    StaleByte(p, q);
    hide Wire;
    var r := EncodeReleaseEncode(p, q);
    frame := r.frame;
  }

  lemma PacketOnTheWire()
    ensures Wire(Packet(2, [97, 98], [120, 121, 122])) == [2, 0, 2, 97, 98, 0, 0, 0, 3, 120, 121, 122]
  {
  }
}
