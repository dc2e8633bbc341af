/**
 The session header of data streams: its encoder, the buffer decoder, and the
 streaming parser that also accepts the legacy format, told apart by one byte.
 */
module SessionHeader {
  import opened Bytes
  import opened Prelude

  datatype Header = Header(protocol: byte, addrType: byte, target: bytes, flags: byte, connId: bytes, streamId: nat)

  const PROTOCOL_TCP: byte := 1
  const PROTOCOL_HTTP2: byte := 4
  const PROTOCOL_HTTP3: byte := 5

  /** Protocol == ProtocolHTTP2 && Flags & FlagHTTP2FrameMap != 0, the flag being bit 0x04. */
  predicate HasStreamId(h: Header) {
    h.protocol == PROTOCOL_HTTP2 && h.flags / 4 % 2 == 1
  }

  /** The wire format, field by field; length prefixes truncate to 16 bits. */
  function Wire(h: Header): bytes {
    [h.protocol] + ([h.addrType] + (Field(h.target) + ([h.flags] + (Field(h.connId) + StreamIdBytes(h)))))
  }

  function StreamIdBytes(h: Header): bytes {
    if HasStreamId(h) then Be32(h.streamId) else []
  }

  /** The information a header carries across: address type filled in, an unsent stream id zero. */
  function Canonical(h: Header, detected: byte): Header {
    h.(addrType := if h.addrType == 0 then detected else h.addrType,
       streamId := if HasStreamId(h) then h.streamId else 0)
  }

  /** Headers the decoder can return. */
  predicate Readable(h: Header) {
    && |h.target| < 65536 && |h.connId| < 65536
    && if HasStreamId(h) then h.streamId < 0x1_0000_0000 else h.streamId == 0
  }

  /**
   What a receiver of `data` + rest is to find: every field as it was, the address
   type filled in if it was not set, and the stream id exactly for HTTP/2
   (protocol 4) with flag bit 0x04.
   */
  ghost predicate Recovers(h: Header, detected: byte, data: bytes, rest: bytes) {
    var d := Decode(data + rest);
    && d.Some? && d.value.1 == |data|
    && var k := d.value.0;
       && k.protocol == h.protocol && k.target == h.target && k.flags == h.flags && k.connId == h.connId
       && k.addrType == (if h.addrType != 0 then h.addrType else detected) && k.addrType != 0
       && k.streamId == if h.protocol == 4 && h.flags / 4 % 2 == 1 then h.streamId else 0
  }

  lemma CanonicalRecovers(h: Header, detected: byte, rest: bytes)
    requires h.streamId < 0x1_0000_0000 && 1 <= detected <= 3 && |h.target| < 65536 && |h.connId| < 65536
    ensures Recovers(h, detected, Wire(Canonical(h, detected)), rest)
  {
    HeaderRoundTripIff(h, detected, rest);
    hide Wire, Decode;
  }

  /** The bytes of a header with a stream id. */
  lemma HeaderOnTheWire()
    ensures Wire(Header(4, 2, [97, 98], 5, [99], 258)) == [4, 2, 0, 2, 97, 98, 5, 0, 1, 99, 0, 0, 1, 2]
    ensures Wire(Header(1, 3, [97], 0, [], 0)) == [1, 3, 0, 1, 97, 0, 0, 0]
  {
  }

  /** SessionHeader.Encode; `detected` is the nonzero result of address detection. */
  method Encode(h: Header, detected: byte) returns (buf: array<byte>)
    requires h.streamId < 0x1_0000_0000 && 1 <= detected <= 3
    ensures fresh(buf) && buf[..] == Wire(Canonical(h, detected))
    ensures |h.target| < 65536 && |h.connId| < 65536 ==> forall rest: bytes :: Recovers(h, detected, buf[..], rest)
  {
    hide HasStreamId, Field, Wire;
    FieldLength(h.target);
    FieldLength(h.connId);
    ghost var k := Canonical(h, detected);
    var id := StreamIdBytes(h);
    buf := new byte[7 + |h.target| + |h.connId| + |id|](_ => 0);
    var offset := Append(buf, 0, [h.protocol], []);
    offset := Append(buf, offset, [if h.addrType == 0 then detected else h.addrType], [k.protocol]);
    offset := Append(buf, offset, Field(h.target), [k.protocol] + [k.addrType]);
    offset := Append(buf, offset, [h.flags], [k.protocol] + [k.addrType] + Field(k.target));
    offset := Append(buf, offset, Field(h.connId), [k.protocol] + [k.addrType] + Field(k.target) + [k.flags]);
    offset := Append(buf, offset, id, [k.protocol] + [k.addrType] + Field(k.target) + [k.flags] + Field(k.connId));
    CanonicalStreamId(h, detected);
    WireParts(k);
    assert buf[..] == buf[..offset];
    if |h.target| < 65536 && |h.connId| < 65536 {
      forall rest: bytes ensures Recovers(h, detected, buf[..], rest) {
        CanonicalRecovers(h, detected, rest);
      }
    }
  }

  lemma CanonicalStreamId(h: Header, detected: byte)
    ensures StreamIdBytes(Canonical(h, detected)) == StreamIdBytes(h)
  {
  }

  lemma WireParts(h: Header)
    ensures Wire(h) ==
            [h.protocol] + [h.addrType] + Field(h.target) + [h.flags] + Field(h.connId) + StreamIdBytes(h)
  {
    hide StreamIdBytes, Field;
    var p, a, f: bytes := [h.protocol], [h.addrType], [h.flags];
    var t, c, x := Field(h.target), Field(h.connId), StreamIdBytes(h);
    ConcatAssoc(p + a + t + f, c, x);
    ConcatAssoc(p + a + t, f, c + x);
    ConcatAssoc(p + a, t, f + (c + x));
    ConcatAssoc(p, a, t + (f + (c + x)));
  }

  // ---- the buffer decoder ----

  /** DecodeSessionHeader: the header and the number of bytes consumed, or None for its errors. */
  function Decode(data: bytes): Option<(Header, nat)> {
    if |data| < 7 then None
    else
      var targetLen := U16(data, 2);
      if |data| < 4 + targetLen + 3 then None
      else
        var at := 7 + targetLen;
        var connIdLen := U16(data, 5 + targetLen);
        if |data| < at + connIdLen then None
        else
          var h := Header(data[0], data[1], data[4..4 + targetLen], data[4 + targetLen],
                          data[at..at + connIdLen], 0);
          var end := at + connIdLen;
          if !HasStreamId(h) then Some((h, end))
          else if |data| < end + 4 then None
          else Some((h.(streamId := U32(data, end)), end + 4))
  }

  /** A header's wire form stands at the front exactly when each of its parts stands in its place. */
  lemma WireInParts(data: bytes, h: Header)
    ensures Wire(h) <= data <==>
            var t, c := |h.target|, |h.connId|;
            && StartsAt(data, 0, [h.protocol]) && StartsAt(data, 1, [h.addrType])
            && StartsAt(data, 2, Field(h.target)) && StartsAt(data, 4 + t, [h.flags])
            && StartsAt(data, 5 + t, Field(h.connId)) && StartsAt(data, 7 + t + c, StreamIdBytes(h))
  {
    hide StreamIdBytes, Field, StartsAt;
    var t, c := |h.target|, |h.connId|;
    var x := StreamIdBytes(h);
    var a4 := Field(h.connId) + x;
    var a3 := [h.flags] + a4;
    var a2 := Field(h.target) + a3;
    var a1 := [h.addrType] + a2;
    FieldLength(h.target);
    FieldLength(h.connId);
    StartsAtPrefix(data, Wire(h));
    StartsAtConcat(data, 0, [h.protocol], a1);
    StartsAtConcat(data, 1, [h.addrType], a2);
    StartsAtConcat(data, 2, Field(h.target), a3);
    StartsAtConcat(data, 4 + t, [h.flags], a4);
    StartsAtConcat(data, 5 + t, Field(h.connId), x);
  }

  lemma StreamIdStarts(data: bytes, at: nat, h: Header)
    requires Readable(h)
    ensures StartsAt(data, at, StreamIdBytes(h)) <==>
            at <= |data| && (HasStreamId(h) ==> at + 4 <= |data| && U32(data, at) == h.streamId)
  {
    hide Be32, U32;
    if HasStreamId(h) {
      StartsAtU32(data, at, h.streamId);
    }
  }

  lemma WireStarts(data: bytes, h: Header)
    requires Readable(h)
    ensures Wire(h) <= data <==>
            var t, c := |h.target|, |h.connId|;
            && 7 + t + c <= |data|
            && data[0] == h.protocol && data[1] == h.addrType
            && U16(data, 2) == t && data[4..4 + t] == h.target
            && data[4 + t] == h.flags
            && U16(data, 5 + t) == c && data[7 + t..7 + t + c] == h.connId
            && (HasStreamId(h) ==> 11 + t + c <= |data| && U32(data, 7 + t + c) == h.streamId)
  {
    WireInParts(data, h);
    hide HasStreamId, StreamIdBytes, Field, U16, U32, Wire, StartsAt;
    var t, c := |h.target|, |h.connId|;
    StartsAtByte(data, 0, h.protocol);
    StartsAtByte(data, 1, h.addrType);
    StartsAtByte(data, 4 + t, h.flags);
    StartsAtField(data, 2, h.target);
    StartsAtField(data, 5 + t, h.connId);
    StreamIdStarts(data, 7 + t + c, h);
  }

  lemma WireLength(h: Header)
    ensures |Wire(h)| == 7 + |h.target| + |h.connId| + if HasStreamId(h) then 4 else 0
  {
  }

  /** The decoder accepts exactly the inputs that begin with a header, and consumes exactly that header. */
  lemma DecodeIff(data: bytes, h: Header, n: nat)
    ensures Decode(data) == Some((h, n)) <==> Readable(h) && Wire(h) <= data && n == |Wire(h)|
  {
    WireLength(h);
    hide Wire, U16, U32;
    if Readable(h) {
      WireStarts(data, h);
    }
  }

  /** Decoding what was encoded recovers the canonical header if and only if both fields fit their length prefixes. */
  lemma HeaderRoundTripIff(h: Header, detected: byte, rest: bytes)
    requires h.streamId < 0x1_0000_0000
    ensures var k := Canonical(h, detected);
            Decode(Wire(k) + rest) == Some((k, |Wire(k)|)) <==> |h.target| < 65536 && |h.connId| < 65536
  {
    var k := Canonical(h, detected);
    DecodeIff(Wire(k) + rest, k, |Wire(k)|);
  }

  // ---- the streaming parser ----

  function Concat(chunks: seq<bytes>): bytes {
    if chunks == [] then [] else chunks[0] + Concat(chunks[1..])
  }

  /** A stream that delivers its bytes in chunks of any sizes. */
  class ByteStream {
    var chunks: seq<bytes>

    ghost function Rest(): bytes
      reads this
    {
      Concat(chunks)
    }

    constructor (chunks: seq<bytes>)
      ensures this.chunks == chunks
    {
      this.chunks := chunks;
    }

    method Read(max: nat) returns (got: bytes, eof: bool)
      requires max > 0
      modifies this
      ensures eof == (old(chunks) == []) && |got| <= max
      ensures got + Rest() == old(Rest())
      ensures !eof ==> |chunks| < |old(chunks)| || (|chunks| == |old(chunks)| && |got| == max)
    {
      if chunks == [] {
        return [], true;
      }
      eof := false;
      var first := chunks[0];
      if |first| <= max {
        got := first;
        chunks := chunks[1..];
      } else {
        got := first[..max];
        assert first == got + first[max..];
        ConcatAssoc(got, first[max..], Concat(chunks[1..]));
        chunks := [first[max..]] + chunks[1..];
        assert chunks[1..] == old(chunks)[1..];
      }
    }

    /** io.ReadFull: however the bytes are chunked, the next n of them, or an error that drains the stream. */
    method ReadFull(n: nat) returns (r: Option<bytes>)
      modifies this
      ensures |old(Rest())| >= n ==> r == Some(old(Rest())[..n]) && Rest() == old(Rest())[n..]
      ensures |old(Rest())| < n ==> r == None && Rest() == []
    {
      var got: bytes := [];
      while |got| < n
        invariant |got| <= n && got + Rest() == old(Rest())
        decreases n - |got| + |chunks|
      {
        var more, eof := Read(n - |got|);
        if eof {
          return None;
        }
        ConcatAssoc(got, more, Rest());
        got := got + more;
      }
      r := Some(got);
    }
  }

  function LegacyHeader(connId: bytes): Header {
    Header(0, 0, [], 0, connId, 0)
  }

  predicate IsProtocol(b: byte) {
    PROTOCOL_TCP <= b <= PROTOCOL_HTTP3
  }

  /** What parseSessionHeader reads off a byte string, and what it leaves. */
  function ParseStream(s: bytes): Option<(Header, bytes)> {
    if s == [] then None
    else if IsProtocol(s[0]) then ParseCurrent(s)
    else ParseLegacy(s)
  }

  function ParseCurrent(s: bytes): Option<(Header, bytes)>
    requires s != []
  {
    if |s| < 4 then None
    else
      var t := U16(s, 2);
      if |s| < 7 + t then None
      else
        var c := U16(s, 5 + t);
        if |s| < 7 + t + c then None
        else Some((Header(s[0], s[1], s[4..4 + t], s[4 + t], s[7 + t..7 + t + c], 0), s[7 + t + c..]))
  }

  function ParseLegacy(s: bytes): Option<(Header, bytes)>
    requires s != []
  {
    if |s| < 2 then None
    else
      var c := U16(s, 0);
      if |s| < 2 + c then None else Some((LegacyHeader(s[2..2 + c]), s[2 + c..]))
  }

  /** A length-prefixed field off the stream: two bytes, then that many if any. */
  method ReadField(stream: ByteStream) returns (r: Option<bytes>)
    modifies stream
    ensures var s := old(stream.Rest());
            if |s| >= 2 && |s| >= 2 + U16(s, 0)
            then r == Some(s[2..2 + U16(s, 0)]) && stream.Rest() == s[2 + U16(s, 0)..]
            else r == None
  {
    ghost var s := stream.Rest();
    var lenBuf := stream.ReadFull(2);
    if lenBuf.None? {
      return None;
    }
    var n := U16(lenBuf.value, 0);
    assert n == U16(s, 0);
    if n == 0 {
      assert s[2..2] == [];
      return Some([]);
    }
    r := stream.ReadFull(n);
    assert |s| >= 2 + n ==> s[2..][..n] == s[2..2 + n] && s[2..][n..] == s[2 + n..];
  }

  /** parseSessionHeader. */
  method ParseSessionHeader(stream: ByteStream) returns (h: Option<Header>)
    modifies stream
    ensures match ParseStream(old(stream.Rest()))
            case None => h == None
            case Some(p) => h == Some(p.0) && stream.Rest() == p.1
  {
    ghost var s := stream.Rest();
    var first := stream.ReadFull(1);
    if first.None? {
      return None;
    }
    if IsProtocol(first.value[0]) {
      h := ParseRest(stream, first.value[0], s);
    } else {
      var low := stream.ReadFull(1);
      if low.None? {
        return None;
      }
      assert s[1..][1..] == s[2..];
      var n := (first.value[0] as int) * 256 + low.value[0];
      assert n == U16(s, 0);
      var connId: Option<bytes> := Some([]);
      if n > 0 {
        connId := stream.ReadFull(n);
        assert |s| >= 2 + n ==> s[2..][..n] == s[2..2 + n] && s[2..][n..] == s[2 + n..];
      }
      if connId.None? {
        return None;
      }
      assert connId.value == s[2..2 + n];
      h := Some(LegacyHeader(connId.value));
    }
  }

  method ParseRest(stream: ByteStream, protocol: byte, ghost s: bytes) returns (h: Option<Header>)
    requires s != [] && s[0] == protocol && stream.Rest() == s[1..]
    modifies stream
    ensures match ParseCurrent(s)
            case None => h == None
            case Some(p) => h == Some(p.0) && stream.Rest() == p.1
  {
    hide U16;
    var addrType := stream.ReadFull(1);
    if addrType.None? {
      return None;
    }
    ghost var s2 := s[2..];
    assert stream.Rest() == s2;
    var target := ReadField(stream);
    if target.None? {
      if |s2| >= 2 {
        DropThenU16(s, 2);
      }
      return None;
    }
    DropThenU16(s, 2);
    ghost var t := U16(s, 2);
    DropThenSlice(s, 2, 2, 2 + t);
    var flags := stream.ReadFull(1);
    if flags.None? {
      return None;
    }
    ghost var s4 := s[5 + t..];
    assert stream.Rest() == s4;
    var connId := ReadField(stream);
    if connId.None? {
      if |s4| >= 2 {
        DropThenU16(s, 5 + t);
      }
      return None;
    }
    DropThenU16(s, 5 + t);
    DropThenSlice(s, 5 + t, 2, 2 + U16(s, 5 + t));
    h := Some(Header(protocol, addrType.value[0], target.value, flags.value[0], connId.value, 0));
  }

  /** On every input in the current format the two parsers agree, up to the stream id only one of them reads. */
  lemma ParsersAgree(data: bytes)
    requires data != [] && 1 <= data[0] <= 5
    ensures match ParseStream(data)
            case None => Decode(data) == None
            case Some(p) =>
              var n := |data| - |p.1|;
              Decode(data) ==
              if !HasStreamId(p.0) then Some((p.0, n))
              else if |p.1| < 4 then None
              else Some((p.0.(streamId := U32(p.1, 0)), n + 4))
  {
    var p := ParseStream(data);
    if p.Some? {
      var n := |data| - |p.value.1|;
      assert p.value.1 == data[n..];
      assert |p.value.1| >= 4 ==> U32(p.value.1, 0) == U32(data, n);
    }
  }

  /** An input that does not begin with a protocol number, 1 to 5, is read as a legacy frame and nothing else. */
  lemma LegacyParsesIff(s: bytes, h: Header, rest: bytes)
    requires s != [] && !(1 <= s[0] <= 5)
    ensures ParseStream(s) == Some((h, rest)) <==>
            h == Header(0, 0, [], 0, h.connId, 0) && |h.connId| < 65536 && s == Field(h.connId) + rest
  {
    if |h.connId| < 65536 {
      StartsAtField(s, 0, h.connId);
      StartsAtPrefix(s, Field(h.connId));
      var n := 2 + |h.connId|;
      if n <= |s| {
        assert s == s[..n] + s[n..];
        assert (Field(h.connId) + rest)[n..] == rest && (Field(h.connId) + rest)[..n] == Field(h.connId);
      }
    }
    hide Field, U16;
  }

  /** For protocols 1 to 5 the streaming parser recovers the header and leaves the payload if no stream id follows. */
  lemma StreamRoundTripIff(h: Header, rest: bytes)
    requires Readable(h) && 1 <= h.protocol <= 5
    ensures ParseStream(Wire(h) + rest) == Some((h, rest)) <==> !(h.protocol == 4 && h.flags / 4 % 2 == 1)
  {
    var data := Wire(h) + rest;
    DecodeIff(data, h, |Wire(h)|);
    ParsersAgree(data);
    assert data[|Wire(h)|..] == rest;
  }

  /** A legacy frame parses exactly if and only if the high byte of its length is not a protocol number. */
  lemma LegacyIff(connId: bytes, rest: bytes)
    requires |connId| < 65536
    ensures ParseStream(Field(connId) + rest) == Some((Header(0, 0, [], 0, connId, 0), rest)) <==>
            !(1 <= |connId| / 256 <= 5)
  {
    var data := Field(connId) + rest;
    assert data[0] == |connId| / 256;
    if !IsProtocol(|connId| / 256) {
      StartsAtPrefix(data, Field(connId));
      StartsAtField(data, 0, connId);
      assert data[2 + |connId|..] == rest;
    }
  }
}
